/** The end-to-end test as a forward-only state machine: open the home page,
    check it, branch on the temperature, fill the cart from the chosen
    catalog, check the cart, pay, and check the confirmation. Every check is
    a gate; the first one that fails ends the run. */
module Flow {
  import opened Wrappers
  import opened Text
  import opened Dom
  import opened Home
  import opened Catalog
  import opened Cart
  import opened Payment

  const AppUrl: string := "https://weathershopper.pythonanywhere.com/"
  const ExpectedCartItems: nat := 2

  /** The details the test pays with. */
  const TestDetails: PaymentDetails :=
    PaymentDetails("test@weathershopper.com", "4242424242424242", "1226", "123", Some("75500"))

  /** Everything the test reads, page by page, as it is when the test reads it. */
  datatype World = World(
    currentUrl: string,         // the address after navigating to the application
    home: HomePage,
    moisturizers: CatalogPage,
    sunscreens: CatalogPage,
    cart: CartPage,
    payment: PaymentScreen,
    confirmation: SuccessPage)

  /** The stages of the run, each reached when the one before it passed. */
  datatype Stage =
    | Start
    | HomeOpened
    | HomeVerified
    | CategorySelected
    | ProductsAdded
    | CartVerified
    | CheckoutReached
    | PaymentSubmitted
    | PaymentConfirmed

  /** How many steps passed before the stage was reached. */
  function Rank(s: Stage): (n: nat)
    ensures n <= 8
    ensures n == 0 <==> s == Start
    ensures n == 8 <==> s == PaymentConfirmed
  {
    match s
    case Start => 0
    case HomeOpened => 1
    case HomeVerified => 2
    case CategorySelected => 3
    case ProductsAdded => 4
    case CartVerified => 5
    case CheckoutReached => 6
    case PaymentSubmitted => 7
    case PaymentConfirmed => 8
  }

  /** A running test at a stage, or one a failure ended at a stage; both
      carry everything done to the browser so far. */
  datatype FlowState =
    | Running(stage: Stage, log: seq<Action>)
    | Failed(stage: Stage, reason: Error, log: seq<Action>)

  /** `Assert.assertTrue(condition, message)`. */
  function Check(condition: bool, message: string): (r: Effect<()>)
    ensures r.actions == []
    ensures r.result.Success? <==> condition
    ensures r.result.Failure? ==> r.result.error == AssertionFailed(message)
  {
    if condition then Effect([], Success(())) else Effect([], Failure(AssertionFailed(message)))
  }

  /** Keep the actions of a step, drop its value. */
  function Done<T>(e: Effect<T>): (r: Effect<()>)
    ensures r.actions == e.actions
    ensures r.result.Success? <==> e.result.Success?
    ensures r.result.Failure? ==> r.result.error == e.result.error
  {
    match e.result
    case Success(_) => Effect(e.actions, Success(()))
    case Failure(err) => Effect(e.actions, Failure(err))
  }

  /** Turn a boolean query that may throw into an assertion. */
  function CheckResult(q: Result<bool, Error>, message: string): (r: Effect<()>)
    ensures r.actions == []
    ensures r.result.Success? <==> q == Success(true)
    ensures q.Failure? ==> r.result == Failure(q.error)
    ensures q == Success(false) ==> r.result == Failure(AssertionFailed(message))
  {
    match q
    case Failure(e) => Effect([], Failure(e))
    case Success(b) => Check(b, message)
  }

  // ---------------------------------------------------------------- the stages

  /** Step 1: open the application and check the address. */
  function OpenHome(w: World): (r: Effect<()>)
    ensures r.actions == [Navigate(AppUrl)]
    ensures r.result.Success? <==> w.home.ready && Contains(w.currentUrl, "weathershopper")
  {
    AndThen(Effect([Navigate(AppUrl)], if w.home.ready then Success(()) else Failure(Timeout(PageReady))),
      Check(Contains(w.currentUrl, "weathershopper"), "Failed to navigate to Weather Shopper homepage"))
  }

  /** Step 2: both buy buttons are displayed. */
  function VerifyHome(w: World): (r: Effect<()>)
    ensures r.actions == []
    ensures r.result.Success? <==> IsDisplayed(w.home.moisturizersButton) && IsDisplayed(w.home.sunscreensButton)
  {
    AndThen(Check(IsDisplayed(w.home.moisturizersButton), "Moisturizers button is not displayed"),
      Check(IsDisplayed(w.home.sunscreensButton), "Sunscreens button is not displayed"))
  }

  /** Step 3: read the temperature, then branch on it. */
  function ChooseCategory(w: World): (r: Effect<string>)
    ensures r == NavigateBasedOnTemperature(w.home)
  {
    match GetTemperature(w.home)
    case Failure(e) => Effect([], Failure(e))
    case Success(_) => NavigateBasedOnTemperature(w.home)
  }

  /** `testMoisturizersFlow` and `testSunscreensFlow`: the page is loaded, the
      two required picks are added, the badge shows two, the cart opens. */
  function CategoryFlow(page: CatalogPage, c: Category, cart: CartPage): (r: Effect<()>)
    ensures r.result.Success? <==>
      IsCatalogLoaded(page) && AddRequired(page, c).result.Success?
      && VerifyCartCount(page, ExpectedCartItems) && ClickCartButton(page, cart.ready).result.Success?
    ensures !IsCatalogLoaded(page) ==> r.actions == []
    ensures !VerifyCartCount(page, ExpectedCartItems) || AddRequired(page, c).result.Failure? ==>
      Click(CartButton) !in r.actions
    ensures Click(CartButton) in r.actions ==>
      IsCatalogLoaded(page) && AddRequired(page, c).result.Success? && VerifyCartCount(page, ExpectedCartItems)
      && r.actions == AddRequired(page, c).actions + [Click(CartButton)]
  {
    var loaded := match c
      case Moisturizers => "Moisturizers page did not load properly"
      case Sunscreens => "Sunscreens page did not load properly";
    var load := Check(IsCatalogLoaded(page), loaded);
    var add := AddRequired(page, c);
    var count := Check(VerifyCartCount(page, ExpectedCartItems), "Cart count verification failed - Expected: 2");
    var open := ClickCartButton(page, cart.ready);
    GateBeforeCartClick(load, add, count, open);
    AndThen(load, AndThen(add, AndThen(count, open)))
  }

  /** Four gated steps whose last alone may click the cart button: the click
      happens only when the three before it passed, and it is the last action. */
  lemma GateBeforeCartClick(load: Effect<()>, add: Effect<()>, count: Effect<()>, open: Effect<()>)
    requires load.actions == [] && count.actions == []
    requires Click(CartButton) !in add.actions
    requires open.actions == [] || open.actions == [Click(CartButton)]
    ensures var r := AndThen(load, AndThen(add, AndThen(count, open)));
      (load.result.Failure? || add.result.Failure? || count.result.Failure? ==> Click(CartButton) !in r.actions)
      && (Click(CartButton) in r.actions ==>
            load.result.Success? && add.result.Success? && count.result.Success?
            && r.actions == add.actions + [Click(CartButton)])
  {
  }

  /** Step 4: the category flow the branch named; any other name runs none.
      The cart is opened only from the named catalog, once its badge shows two. */
  function AddProducts(w: World, productType: string): (r: Effect<()>)
    ensures productType != "moisturizers" && productType != "sunscreens" ==> r == Effect([], Success(()))
    ensures Click(CartButton) in r.actions ==>
      (productType == "moisturizers" && AddRequired(w.moisturizers, Moisturizers).result.Success?
       && VerifyCartCount(w.moisturizers, ExpectedCartItems))
      || (productType == "sunscreens" && AddRequired(w.sunscreens, Sunscreens).result.Success?
       && VerifyCartCount(w.sunscreens, ExpectedCartItems))
    ensures productType == "moisturizers" ==>
      (r.result.Success? <==>
         (IsCatalogLoaded(w.moisturizers) && AddRequired(w.moisturizers, Moisturizers).result.Success?
          && VerifyCartCount(w.moisturizers, ExpectedCartItems) && ClickCartButton(w.moisturizers, w.cart.ready).result.Success?))
    ensures productType == "sunscreens" ==>
      (r.result.Success? <==>
         (IsCatalogLoaded(w.sunscreens) && AddRequired(w.sunscreens, Sunscreens).result.Success?
          && VerifyCartCount(w.sunscreens, ExpectedCartItems) && ClickCartButton(w.sunscreens, w.cart.ready).result.Success?))
  {
    if productType == "moisturizers" then CategoryFlow(w.moisturizers, Moisturizers, w.cart)
    else if productType == "sunscreens" then CategoryFlow(w.sunscreens, Sunscreens, w.cart)
    else Effect([], Success(()))
  }

  /** Step 5, `testCartFlow` up to the button: loaded, two rows, every row
      readable, a displayed and positive total. */
  function VerifyCart(w: World): (r: Effect<()>)
    ensures r.actions == []
    ensures r.result.Success? <==>
      IsCartPageLoaded(w.cart) && VerifyCartItemCount(w.cart, ExpectedCartItems) == Success(true)
      && AllCartItems(w.cart).Success? && IsTotalPriceDisplayed(w.cart)
      && IsTotalPriceValid(w.cart) == Success(true)
  {
    AndThen(Check(IsCartPageLoaded(w.cart), "Cart page did not load properly"),
      AndThen(CheckResult(VerifyCartItemCount(w.cart, ExpectedCartItems), "Cart should contain 2 items"),
        AndThen(Done(Effect([], AllCartItems(w.cart))),
          AndThen(Check(IsTotalPriceDisplayed(w.cart), "Total price is not displayed"),
            CheckResult(IsTotalPriceValid(w.cart), "Total price should be greater than 0")))))
  }

  /** Step 6, `testPaymentFlow` after the payment: the four groups of
      assertions on the confirmation, in the order the test makes them. */
  function VerifyConfirmation(w: World): (r: Effect<()>)
    ensures r.actions == []
    ensures r.result.Success? <==>
      VerifyPaymentSuccessHeading(w.confirmation)
      && VerifySuccessMessage(w.confirmation) && VerifyFullSuccessMessage(w.confirmation)
      && Contains(GetSuccessMessage(w.confirmation), HeadingFragment)
      && Contains(GetSuccessMessage(w.confirmation), MainFragment)
      && Contains(GetSuccessMessage(w.confirmation), FollowUpFragment)
  {
    var page := w.confirmation;
    var message := GetSuccessMessage(page);
    AndThen(Check(VerifyPaymentSuccessHeading(page), "PAYMENT SUCCESS heading should be displayed"),
      AndThen(Check(VerifySuccessMessage(page), "Payment success message should be displayed"),
        AndThen(Check(VerifyFullSuccessMessage(page),
                      "Success message should contain: '" + FullBody + "'"),
          AndThen(Check(Contains(message, HeadingFragment), "Message should contain heading: 'PAYMENT SUCCESS'"),
            AndThen(Check(Contains(message, MainFragment), "Message should contain: 'Your payment was successful'"),
              Check(Contains(message, FollowUpFragment), "Message should contain: 'follow-up call from our sales team'"))))))
  }

  /** The stage reached after `n` passed steps. */
  function StageAt(n: nat): (s: Stage)
    requires n <= 8
    ensures Rank(s) == n
  {
    match n
    case 0 => Start
    case 1 => HomeOpened
    case 2 => HomeVerified
    case 3 => CategorySelected
    case 4 => ProductsAdded
    case 5 => CartVerified
    case 6 => CheckoutReached
    case 7 => PaymentSubmitted
    case _ => PaymentConfirmed
  }

  lemma StageAtRank(s: Stage)
    ensures StageAt(Rank(s)) == s
  {
  }

  // ---------------------------------------------------------------- the run

  /** What each step of the run did, in the order the steps run. */
  datatype Steps = Steps(
    openHome: Effect<()>,
    verifyHome: Effect<()>,
    chooseCategory: Effect<()>,
    addProducts: Effect<()>,
    verifyCart: Effect<()>,
    payWithCard: Effect<()>,
    completePayment: Effect<()>,
    verifyConfirmation: Effect<()>)

  /** The step a running test takes at a stage. */
  function Work(steps: Steps, s: Stage): Effect<()>
    requires s != PaymentConfirmed
  {
    match s
    case Start => steps.openHome
    case HomeOpened => steps.verifyHome
    case HomeVerified => steps.chooseCategory
    case CategorySelected => steps.addProducts
    case ProductsAdded => steps.verifyCart
    case CartVerified => steps.payWithCard
    case CheckoutReached => steps.completePayment
    case PaymentSubmitted => steps.verifyConfirmation
  }

  /** One step of the run: a running test does the work of its stage and
      reaches the next stage when it passes, or fails at its stage with the
      work's error; a failed or finished run stays as it is. */
  function Step(steps: Steps, st: FlowState): (r: FlowState)
    ensures st.Failed? || st.stage == PaymentConfirmed ==> r == st
    ensures st.Running? && st.stage != PaymentConfirmed ==>
      var e := Work(steps, st.stage);
      r.log == st.log + e.actions
      && (r.Running? <==> e.result.Success?)
      && (r.Running? ==> Rank(r.stage) == Rank(st.stage) + 1)
      && (r.Failed? ==> r.stage == st.stage && r.reason == e.result.error)
  {
    match st
    case Failed(_, _, _) => st
    case Running(s, log) =>
      if s == PaymentConfirmed then st
      else
        var e := Work(steps, s);
        match e.result
        case Success(_) => Running(StageAt(Rank(s) + 1), log + e.actions)
        case Failure(err) => Failed(s, err, log + e.actions)
  }

  /** The state after `n` steps. */
  function Trace(steps: Steps, n: nat): FlowState
  {
    if n == 0 then Running(Start, []) else Step(steps, Trace(steps, n - 1))
  }

  /** All actions of the first `n` steps, in order. */
  function ActionsOf(steps: Steps, n: nat): seq<Action>
    requires n <= 8
  {
    if n == 0 then [] else ActionsOf(steps, n - 1) + Work(steps, StageAt(n - 1)).actions
  }

  /** The branch the temperature chose; the flow of any other name is empty. */
  function ChosenType(w: World): string
  {
    var choice := NavigateBasedOnTemperature(w.home);
    if choice.result.Success? then choice.result.value else ""
  }

  /** The outcome of each step of `testWeatherShopperCompleteFlow` on the
      world it meets. */
  function StepsOf(w: World, d: PaymentDetails): (steps: Steps)
  {
    Steps(OpenHome(w), VerifyHome(w), Done(ChooseCategory(w)), AddProducts(w, ChosenType(w)),
      VerifyCart(w), Done(ClickPayWithCard(w.cart)), CompletePayment(w.payment, d), VerifyConfirmation(w))
  }

  /** The state after all eight steps: confirmed exactly when every step
      passed, otherwise failed at a stage before the confirmation. */
  function Finish(steps: Steps): (r: FlowState)
    ensures r.Running? <==> forall i :: 0 <= i < 8 ==> Work(steps, StageAt(i)).result.Success?
    ensures r.Running? ==> r.stage == PaymentConfirmed && r.log == ActionsOf(steps, 8)
    ensures r.Failed? ==> Rank(r.stage) < 8
  {
    RunningIffStepsPassed(steps, 8);
    TraceProgress(steps, 8);
    Trace(steps, 8)
  }

  /** A complete run of the test with its own payment details. */
  function Run(w: World): FlowState
  {
    Finish(StepsOf(w, TestDetails))
  }

  // ---------------------------------------------------------------- properties of any run

  /** Stages are reached one at a time, in order. */
  lemma {:induction false} TraceProgress(steps: Steps, n: nat)
    requires n <= 8
    ensures Trace(steps, n).Running? ==> Trace(steps, n).stage == StageAt(n)
    ensures Trace(steps, n).Failed? ==> Rank(Trace(steps, n).stage) < n
  {
    if n > 0 {
      TraceProgress(steps, n - 1);
      if Trace(steps, n).Running? {
        StageAtRank(Trace(steps, n).stage);
      }
    }
  }

  /** Once the run fails it stays failed, with the same stage, reason and log. */
  lemma {:induction false} FailureIsFinal(steps: Steps, n: nat, m: nat)
    requires n <= m
    requires Trace(steps, n).Failed?
    ensures Trace(steps, m) == Trace(steps, n)
    decreases m - n
  {
    if m > n {
      FailureIsFinal(steps, n, m - 1);
    }
  }

  /** The log of an earlier state is a prefix of the log of a later one. */
  lemma {:induction false} LogGrows(steps: Steps, n: nat, m: nat)
    requires n <= m
    ensures |Trace(steps, n).log| <= |Trace(steps, m).log|
    ensures Trace(steps, m).log[..|Trace(steps, n).log|] == Trace(steps, n).log
    decreases m - n
  {
    if m > n {
      LogGrows(steps, n, m - 1);
      var a := Trace(steps, n).log;
      var b := Trace(steps, m - 1).log;
      var c := Trace(steps, m).log;
      assert c[..|b|] == b;
      assert c[..|a|] == b[..|a|];
    }
  }

  /** After `n` steps the run is still going exactly when each of the first
      `n` steps passed, and then it has done all their actions. */
  lemma {:induction false} RunningIffStepsPassed(steps: Steps, n: nat)
    requires n <= 8
    ensures Trace(steps, n).Running? <==> forall i :: 0 <= i < n ==> Work(steps, StageAt(i)).result.Success?
    ensures Trace(steps, n).Running? ==> Trace(steps, n).log == ActionsOf(steps, n)
  {
    if n > 0 {
      RunningIffStepsPassed(steps, n - 1);
      TraceProgress(steps, n - 1);
    }
  }

  /** The first step that fails ends the run: it stays at that step's stage,
      with that step's error, having done the actions up to and including it. */
  lemma {:induction false} FirstFailureEndsRun(steps: Steps, k: nat, n: nat)
    requires k < n <= 8
    requires forall i :: 0 <= i < k ==> Work(steps, StageAt(i)).result.Success?
    requires Work(steps, StageAt(k)).result.Failure?
    ensures Trace(steps, n) == Failed(StageAt(k), Work(steps, StageAt(k)).result.error, ActionsOf(steps, k + 1))
  {
    RunningIffStepsPassed(steps, k);
    TraceProgress(steps, k);
    FailureIsFinal(steps, k + 1, n);
  }

  // ---------------------------------------------------------------- the temperature branch

  /** A temperature from 20 to 33 makes the branch step fail without a click. */
  lemma MildTemperatureFailsBranch(w: World)
    requires GetTemperature(w.home).Success? && 20 <= GetTemperature(w.home).value <= 33
    ensures Done(ChooseCategory(w)) == Effect([], Failure(TemperatureOutOfRange(GetTemperature(w.home).value)))
  {
  }

  /** When the branch step fails that way after a passing start, the run ends
      there, after only the navigation: no catalog, cart or payment step runs. */
  lemma {:induction false} MildTemperatureEndsRun(steps: Steps, t: int)
    requires steps.openHome == Effect([Navigate(AppUrl)], Success(()))
    requires steps.verifyHome == Effect([], Success(()))
    requires steps.chooseCategory == Effect([], Failure(TemperatureOutOfRange(t)))
    ensures Trace(steps, 8) == Failed(HomeVerified, TemperatureOutOfRange(t), [Navigate(AppUrl)])
  {
    assert forall i :: 0 <= i < 2 ==> Work(steps, StageAt(i)).result.Success? by {
      forall i | 0 <= i < 2 ensures Work(steps, StageAt(i)).result.Success? {
        if i == 0 { assert StageAt(i) == Start; } else { assert StageAt(i) == HomeOpened; }
      }
    }
    FirstFailureEndsRun(steps, 2, 8);
    assert StageAt(0) == Start && StageAt(1) == HomeOpened && StageAt(2) == HomeVerified;
    assert ActionsOf(steps, 1) == [Navigate(AppUrl)];
    assert ActionsOf(steps, 2) == ActionsOf(steps, 1) + [];
    assert ActionsOf(steps, 3) == ActionsOf(steps, 2) + [];
  }
}
