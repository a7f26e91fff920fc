/** The home page: read the temperature label and pick a catalog from it. */
module Home {
  import opened Wrappers
  import opened Text
  import opened Dom

  datatype HomePage = HomePage(
    ready: bool,                     // the page finished loading after navigation
    temperature: seq<Elem>,          // matches of the `temperature` id
    moisturizersButton: seq<Elem>,   // matches of the "Buy moisturizers" button
    sunscreensButton: seq<Elem>)     // matches of the "Buy sunscreens" button

  /** The temperature text reduced to digits and minus signs after trimming. */
  function TemperatureDigits(text: string): string
  {
    Keep(Trim(text), IsDigitOrMinus)
  }

  /** `getTemperature`: wait for the label, keep only digits and `-`, parse. */
  function GetTemperature(page: HomePage): (r: Result<int, Error>)
    ensures !IsDisplayed(page.temperature) ==> r == Failure(Timeout(TemperatureLabel))
    ensures IsDisplayed(page.temperature) ==>
      (r.Success? <==> ParseInt(Keep(page.temperature[0].text, IsDigitOrMinus)).Some?)
    ensures r.Success? ==> MinInt32 <= r.value <= MaxInt32
    ensures r.Success? ==> Some(r.value) == ParseInt(Keep(page.temperature[0].text, IsDigitOrMinus))
  {
    match WaitVisible(page.temperature)
    case None => Failure(Timeout(TemperatureLabel))
    case Some(shown) =>
      KeepIgnoresTrim(shown.text, IsDigitOrMinus);
      var digits := TemperatureDigits(shown.text);
      match ParseInt(digits)
      case None => Failure(NumberFormat(digits))
      case Some(t) => Success(t)
  }

  /** Any label of the form `<prefix><temperature><suffix>` whose prefix and
      suffix carry no digit and no minus sign reads back as that temperature,
      so "25°C" reads as 25 and "-5°C" as -5. */
  lemma TemperatureLabelRoundTrip(page: HomePage, prefix: string, t: int, suffix: string)
    requires MinInt32 <= t <= MaxInt32
    requires IsDisplayed(page.temperature)
    requires page.temperature[0].text == prefix + IntToString(t) + suffix
    requires Keep(prefix, IsDigitOrMinus) == [] && Keep(suffix, IsDigitOrMinus) == []
    ensures GetTemperature(page) == Success(t)
  {
    var rendered := IntToString(t);
    assert forall i :: 0 <= i < |rendered| ==> IsDigitOrMinus(rendered[i]);
    KeepAppend(prefix + rendered, suffix, IsDigitOrMinus);
    KeepAppend(prefix, rendered, IsDigitOrMinus);
    KeepAllOf(rendered, IsDigitOrMinus);
    assert Keep(page.temperature[0].text, IsDigitOrMinus) == rendered;
    ParseIntOfIntToString(t);
  }

  /** Stripping that leaves no digit, or leaves a minus sign after the
      first position, is a parse failure: "°C" and "-°C" both fail. */
  lemma UnparsableTemperatureFails(page: HomePage)
    requires IsDisplayed(page.temperature)
    requires var d := Keep(page.temperature[0].text, IsDigitOrMinus);
             (forall i :: 0 <= i < |d| ==> !IsDigit(d[i])) || exists i :: 1 <= i < |d| && d[i] == '-'
    ensures GetTemperature(page).Failure?
    ensures GetTemperature(page).error.NumberFormat?
  {
    KeepIgnoresTrim(page.temperature[0].text, IsDigitOrMinus);
  }

  /** The three outcomes of `navigateBasedOnTemperature`. */
  datatype Branch = ToMoisturizers | ToSunscreens | Unhandled

  /** The branch the code takes: both thresholds are inclusive. */
  function Classify(t: int): (b: Branch)
    ensures b == ToMoisturizers <==> t <= 19
    ensures b == ToSunscreens <==> t >= 34
    ensures b == Unhandled <==> 20 <= t <= 33
  {
    if t <= 19 then ToMoisturizers else if t >= 34 then ToSunscreens else Unhandled
  }

  /** The rule the method's documentation and its error message state: strictly below 19
      or strictly above 34. */
  function DocumentedClassify(t: int): Branch
  {
    if t < 19 then ToMoisturizers else if t > 34 then ToSunscreens else Unhandled
  }

  /** The code and its documentation disagree at exactly two temperatures. */
  lemma CodeAndDocumentationDifferAtBoundaries(t: int)
    ensures Classify(t) != DocumentedClassify(t) <==> t == 19 || t == 34
    ensures Classify(19) == ToMoisturizers && Classify(34) == ToSunscreens
  {
  }

  /** `navigateBasedOnTemperature`: read the temperature, click the one
      button its branch names and report the catalog, or throw. */
  function NavigateBasedOnTemperature(page: HomePage): (r: Effect<string>)
    ensures GetTemperature(page).Failure? ==> r == Effect([], Failure(GetTemperature(page).error))
    ensures r.result == Success("moisturizers") <==>
      GetTemperature(page).Success? && GetTemperature(page).value <= 19 && WaitClickable(page.moisturizersButton).Some?
    ensures r.result == Success("sunscreens") <==>
      GetTemperature(page).Success? && GetTemperature(page).value >= 34 && WaitClickable(page.sunscreensButton).Some?
    ensures r.result.Success? ==> r.result.value == "moisturizers" || r.result.value == "sunscreens"
    ensures r.result == Success("moisturizers") ==> r.actions == [Click(BuyMoisturizersButton)]
    ensures r.result == Success("sunscreens") ==> r.actions == [Click(BuySunscreensButton)]
    ensures r.result.Failure? ==> r.actions == []
    ensures GetTemperature(page).Success? && 20 <= GetTemperature(page).value <= 33 ==>
      r.result == Failure(TemperatureOutOfRange(GetTemperature(page).value))
  {
    match GetTemperature(page)
    case Failure(e) => Effect([], Failure(e))
    case Success(t) =>
      match Classify(t)
      case ToMoisturizers =>
        AndThen(ClickWhenReady(page.moisturizersButton, BuyMoisturizersButton), Effect([], Success("moisturizers")))
      case ToSunscreens =>
        AndThen(ClickWhenReady(page.sunscreensButton, BuySunscreensButton), Effect([], Success("sunscreens")))
      case Unhandled =>
        Effect([], Failure(TemperatureOutOfRange(t)))
  }
}
