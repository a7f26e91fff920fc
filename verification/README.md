# Weather Shopper end-to-end test, modelled in Dafny

The Weather Shopper test drives a shopping site in a browser. It reads the
temperature on the home page and picks moisturizers (cold) or sunscreens (hot).
From that catalog it adds the cheapest product that matches each of two
required keywords, checks the cart, and pays through the Stripe card widget.
It then checks the confirmation page. This project models the decisions the
page objects and the test make, and proves what those decisions guarantee.

The browser is a snapshot:
- Every locator resolves to the sequence of elements it matches, in document order.
- The shared explicit waits become checks on that snapshot. A visibility wait
  passes when the first match is displayed, a clickability wait when it is also
  enabled, and the wait for "all elements" when the list is non-empty and every
  member is displayed.
- Everything the automation does to the page is recorded as an `Action` in a log:
  navigation, clicks, clears, keystrokes, whole-text typing and frame switches.
- Every operation returns an `Effect`: the actions it performed and how it
  ended, with a value or with the exception that ended it.
- Java string and number handling is written out for the characters the
  code meets: `String.trim`, `replaceAll` with the character classes the code
  uses, `contains`, `toLowerCase` on ASCII letters, and `Integer.parseInt` on
  ASCII digits with its sign and 32-bit range. "## Left out" lists where this
  differs from Java on other characters.

Modules (one file each):
- `Wrappers`: `Option` and `Result`.
- `Text`: trimming, filtering, substrings, decimal parsing and rendering.
- `Dom`: elements, locators, waits, the first-success cascade every locator
  fallback uses, and keystroke accounting.
- `Home`: reading the temperature and choosing a catalog.
- `Catalog`: the moisturizer and sunscreen pages. Their page objects are
  copies of each other, so one module is parameterised by category.
- `Cart`: the cart rows, the total and the "Pay with Card" cascade.
- `Payment`: card masking, the five fill steps, submission, frame handling
  and the confirmation page.
- `Flow`: the test method as a forward-only state machine over eight steps.

Where the code and its documentation disagree, the model follows the code:
- The temperature thresholds are inclusive. A temperature of 19 or less buys
  moisturizers and 34 or more buys sunscreens. The method comment and its
  error message say "below 19" and "above 34".
  `Home.CodeAndDocumentationDifferAtBoundaries` proves the two rules differ at
  exactly 19 and 34.

The cart badge and the cart total are read the same way, with one
difference. `getCartCount` returns 0 for a badge without digits, because it
checks for an empty digit string before parsing and catches any exception.
`getTotalPriceValue` has no such check, so a total without digits makes
`parseInt("")` throw. `getTotalPriceValue` and `isTotalPriceValid` then fail
with a number-format error.

## Model

| member | source | states |
|---|---|---|
| Text.ParseInt | WeatherShopper-Java-Selenium/src/main/java/pages/HomePage.java:74 | `Integer.parseInt` accepts only an optional sign followed by at least one digit. Its value lies in the 32-bit range. On a pure digit string it succeeds exactly when the decimal value fits. |
| Text.ParseIntSigned | WeatherShopper-Java-Selenium/src/main/java/pages/HomePage.java:72-74 | A sign followed by digits parses to the signed value of the digits exactly when it fits in 32 bits: "+7" is 7, "-05" is -5, "-2147483648" parses and "+2147483648" does not. |
| Text.ParseIntOfIntToString | WeatherShopper-Java-Selenium/src/main/java/pages/HomePage.java:70-75 | Parsing the decimal rendering of any 32-bit integer, negative ones included, gives that integer back. |
| Text.TrimSplits | WeatherShopper-Java-Selenium/src/main/java/pages/HomePage.java:71 | `trim` removes only characters up to U+0020, and only at the two ends: the input is blank head + trimmed text + blank tail. |
| Text.Trim | WeatherShopper-Java-Selenium/src/main/java/pages/HomePage.java:71 | The trimmed text neither starts nor ends with a character up to U+0020. |
| Text.TrimEmptyIffBlank | WeatherShopper-Java-Selenium/src/main/java/pages/PaymentPage.java:264 | `zipCode.trim().isEmpty()` holds exactly when every character is U+0020 or below. |
| Text.KeepIgnoresTrim | WeatherShopper-Java-Selenium/src/main/java/pages/HomePage.java:71-73 | Trimming before a filter that keeps no blank character changes nothing. So the digits of the temperature are those of the untrimmed label. |
| Dom.WaitAll | WeatherShopper-Java-Selenium/src/main/java/pages/CartPage.java:57-59 | The all-visible wait returns the list exactly when it is non-empty and every member is shown. It never returns an empty list. |
| Dom.IsDisplayed | WeatherShopper-Java-Selenium/src/main/java/pages/BasePage.java:104-110 | True exactly when the first match is displayed. No match reads as false rather than throwing. |
| Dom.WaitVisible | WeatherShopper-Java-Selenium/src/main/java/pages/BasePage.java:32-34 | The visibility wait yields the first match exactly when it is displayed. |
| Dom.WaitClickable | WeatherShopper-Java-Selenium/src/main/java/pages/BasePage.java:41-43 | The clickability wait yields the first match exactly when it is displayed and enabled. |
| Dom.FirstIndex | WeatherShopper-Java-Selenium/src/main/java/pages/PaymentPage.java:65-82 | A locator cascade picks the first candidate that works, and no earlier one works. It finds none exactly when no candidate works. |
| Dom.KeysSentOfTypeKeys | WeatherShopper-Java-Selenium/src/main/java/pages/PaymentPage.java:117-125 | Sending a string one character per `sendKeys` call delivers exactly that string to the field. |
| Home.GetTemperature | WeatherShopper-Java-Selenium/src/main/java/pages/HomePage.java:70-75 | A hidden label times out. Otherwise the result is `parseInt` of the label's digits and minus signs, and it succeeds exactly when that parse does. |
| Home.TemperatureLabelRoundTrip | WeatherShopper-Java-Selenium/src/main/java/pages/HomePage.java:70-75 | A label made of a rendered temperature between a prefix and a suffix that hold no digit or minus sign (such as "25°C" or "-5°C") reads back as that temperature. |
| Home.UnparsableTemperatureFails | WeatherShopper-Java-Selenium/src/main/java/pages/HomePage.java:72-74 | A label with no digit, or whose filtered text has a minus sign after the first position, fails with a number-format error. |
| Home.Classify | WeatherShopper-Java-Selenium/src/main/java/pages/HomePage.java:95-106 | Moisturizers exactly for 19 and below, sunscreens exactly for 34 and above, and the error branch exactly for 20 to 33. |
| Home.CodeAndDocumentationDifferAtBoundaries | WeatherShopper-Java-Selenium/src/main/java/pages/HomePage.java:85-106 | The coded rule and the documented strict rule disagree exactly at 19 and 34. |
| Home.NavigateBasedOnTemperature | WeatherShopper-Java-Selenium/src/main/java/pages/HomePage.java:91-107 | Each outcome happens exactly when its condition holds: "moisturizers" when the temperature is 19 or less and that button is clickable, "sunscreens" when it is 34 or more and that button is clickable, the range error from 20 to 33. The only click is the chosen button. A failure clicks nothing. |
| Catalog.ProductContainers | WeatherShopper-Java-Selenium/src/main/java/pages/MoisturizersPage.java:74-86 | The primary container list is used when its wait succeeds. Otherwise the parents of the Add buttons are used. |
| Catalog.ProductName | WeatherShopper-Java-Selenium/src/main/java/pages/MoisturizersPage.java:92-110 | The name is "" or the text of one of the container's paragraphs. A container whose paragraphs are all empty has the name "". |
| Catalog.NameCascade | WeatherShopper-Java-Selenium/src/main/java/pages/MoisturizersPage.java:92-110 | Which tier names the product: the first paragraph with the exact class, else the first whose class contains the bold class, else the first non-empty paragraph without "Price". The name is "" when no tier finds one. |
| Catalog.PriceOf | WeatherShopper-Java-Selenium/src/main/java/pages/MoisturizersPage.java:112-115 | The price is read from the first paragraph mentioning "Price:". It exists exactly when that paragraph's digits are non-empty and fit in 32 bits, and then it is their value. A container with no such paragraph has no price. |
| Catalog.PriceTextRoundTrip | WeatherShopper-Java-Selenium/src/main/java/pages/MoisturizersPage.java:112-121 | A container whose first price paragraph reads "Price: <prefix><n><suffix>" with digit-free prefix and suffix, such as "Price: Rs. 500", and which has an Add button, yields the record priced n with its first Add button and its cascaded name. |
| Catalog.AddButtonOf | WeatherShopper-Java-Selenium/src/main/java/pages/MoisturizersPage.java:118 | The Add button is the first button of the container whose text mentions "Add". It is missing exactly when no button mentions it. |
| Catalog.ScanContainer | WeatherShopper-Java-Selenium/src/main/java/pages/MoisturizersPage.java:90-124 | Stated over the container's paragraphs and buttons: it yields a record exactly when it has a price paragraph whose digits parse and an Add button. The record is the cascaded name, the value of the first price paragraph's digits, and the first Add button. |
| Catalog.Scan | WeatherShopper-Java-Selenium/src/main/java/pages/MoisturizersPage.java:88-126 | The scan never yields more records than containers. It yields one per container exactly when every container parses. |
| Catalog.ScanMembers | WeatherShopper-Java-Selenium/src/main/java/pages/MoisturizersPage.java:88-126 | A record is in the scan exactly when some container parses to it. Failing containers are skipped without ending the scan. |
| Catalog.ScanAppend | WeatherShopper-Java-Selenium/src/main/java/pages/MoisturizersPage.java:88-126 | The scan keeps container order: the scan of two runs is the two scans, one after the other. |
| Catalog.ListedRecords | WeatherShopper-Java-Selenium/src/main/java/pages/MoisturizersPage.java:70-127 | A loaded page lists a record exactly when some container of the chosen list parses to it. When every container parses, the k-th record is the k-th container's. |
| Catalog.CheapestAmong | WeatherShopper-Java-Selenium/src/main/java/pages/MoisturizersPage.java:136-144 | After any number of loop iterations, the pick is none exactly when no record so far matched. Otherwise it is the first of the cheapest matches so far. |
| Catalog.PickCheapestIsFirstCheapest | WeatherShopper-Java-Selenium/src/main/java/pages/MoisturizersPage.java:134-148 | Both directions: the selection loop returns index i exactly when i is the reference "first cheapest case-insensitive match". It returns nothing exactly when nothing matches. |
| Catalog.FindLeastExpensive | WeatherShopper-Java-Selenium/src/main/java/pages/MoisturizersPage.java:134-153 | The pick is a match of the fresh scan that costs no more than any other match. A pick is made exactly when the page loaded and some record matches the keyword. The not-found exception is raised exactly when the page loaded and no record matches. |
| Catalog.AddLeastExpensive | WeatherShopper-Java-Selenium/src/main/java/pages/MoisturizersPage.java:158-163 | Scroll to the pick's Add button and click it. Nothing is clicked unless a pick was made and its button is clickable. The cart button is never clicked. |
| Catalog.AddRequired | WeatherShopper-Java-Selenium/src/main/java/pages/MoisturizersPage.java:178-181 | The second keyword is tried only after the first succeeds. The log is the first step's log followed by the second's, and never clicks the cart button. |
| Catalog.AddRequiredClicksBothPicksInOrder | WeatherShopper-Java-Selenium/src/main/java/pages/MoisturizersPage.java:158-181 | A successful run scrolls to and clicks exactly the first keyword's pick, then the second's, and nothing else. |
| Catalog.SecondKeywordMissingStopsAfterFirstClick | WeatherShopper-Java-Selenium/src/main/java/pages/SunscreensPage.java:134-182 | If the second keyword has no match, the run fails with that category's not-found message, after clicking only the first pick. |
| Catalog.GetCartCount | WeatherShopper-Java-Selenium/src/main/java/pages/MoisturizersPage.java:187-199 | A hidden badge, a badge without digits, or digits beyond the 32-bit range all read as 0. A shown badge whose digits fit reads as their value, so "Cart - 02" reads 2. Any positive count is the value of the badge's digits. |
| Catalog.CartBadgeRoundTrip | WeatherShopper-Java-Selenium/src/main/java/pages/MoisturizersPage.java:187-210 | A badge whose only digits are those of n, such as "Cart - 2" or "2 item(s)", reads as n, and `verifyCartCount` holds exactly for n. |
| Catalog.VerifyCartCount | WeatherShopper-Java-Selenium/src/main/java/pages/MoisturizersPage.java:206-210 | A hidden badge verifies only 0. A shown badge whose digits fit verifies exactly their value; one whose digits overflow verifies only 0. A positive count verifies only when the badge is shown and its digits have that value. A verified count lies in the 32-bit range. |
| Catalog.IsCatalogLoaded | WeatherShopper-Java-Selenium/src/main/java/pages/MoisturizersPage.java:33-39 | True exactly when the heading's first match is displayed. A missing heading reads as not loaded. |
| Catalog.ClickCartButton | WeatherShopper-Java-Selenium/src/main/java/pages/MoisturizersPage.java:215-219 | Succeeds exactly when the cart button is clickable and the next page loads. It clicks only when the button is clickable. |
| Cart.CartItems | WeatherShopper-Java-Selenium/src/main/java/pages/CartPage.java:57-59 | The rows are returned exactly when there is at least one and all are displayed. Otherwise the wait times out. |
| Cart.IsCartPageLoaded | WeatherShopper-Java-Selenium/src/main/java/pages/CartPage.java:37-43 | True exactly when the first matches of the heading and of the table are both displayed. A missing one reads as not loaded. |
| Cart.VerifyCartItemCount | WeatherShopper-Java-Selenium/src/main/java/pages/CartPage.java:65-78 | True exactly when the rows wait succeeds with the expected number of rows. It throws exactly when that wait fails. |
| Cart.EmptyCartNeverVerifies | WeatherShopper-Java-Selenium/src/main/java/pages/CartPage.java:57-78 | An expected count of 0 can never be verified. |
| Cart.GetCartItemDetails | WeatherShopper-Java-Selenium/src/main/java/pages/CartPage.java:85-96 | The rows wait comes first: when it times out, so does the lookup, and a success implies the wait succeeded. After that wait, an index outside the rows throws index-out-of-bounds. Otherwise the result holds the row's first two cells, and exists exactly when the row has them. |
| Cart.DetailsFrom | WeatherShopper-Java-Selenium/src/main/java/pages/CartPage.java:101-108 | The details of the remaining rows agree, one by one, with `getCartItemDetails`. They are produced exactly when every remaining row has two cells. |
| Cart.AllCartItems | WeatherShopper-Java-Selenium/src/main/java/pages/CartPage.java:101-108 | Printing all items succeeds exactly when every row has two cells. It yields one detail pair per row, in row order. |
| Cart.GetTotalPriceValue | WeatherShopper-Java-Selenium/src/main/java/pages/CartPage.java:122-127 | A hidden total times out. A total without digits throws a number-format error. A shown total whose digits fit in 32 bits parses to their value, so "Rupees 0350" is 350. Digits beyond that range throw a number-format error. |
| Cart.TotalRoundTrip | WeatherShopper-Java-Selenium/src/main/java/pages/CartPage.java:122-127 | A total whose only digits are those of n, such as "Rupees 350", reads back as n. |
| Cart.IsTotalPriceDisplayed | WeatherShopper-Java-Selenium/src/main/java/pages/CartPage.java:133-135 | True exactly when the total's first match is displayed. A missing total reads as not displayed. |
| Cart.IsTotalPriceValid | WeatherShopper-Java-Selenium/src/main/java/pages/CartPage.java:141-146 | True exactly when the total parses to a positive value. A parse failure propagates. |
| Cart.ClickPayWithCard | WeatherShopper-Java-Selenium/src/main/java/pages/CartPage.java:151-188 | A missing label throws before anything else. The clicked button is the first match of the first clickable strategy, and no earlier strategy is clickable. The not-found exception is raised exactly when no strategy is clickable. A failure acts on nothing. |
| Cart.IsPayWithCardButtonDisplayed | WeatherShopper-Java-Selenium/src/main/java/pages/CartPage.java:194-218 | True exactly when the primary button is displayed, or the first alternative with any match has that match displayed. |
| Cart.HiddenEarlierMatchMasksLaterButton | WeatherShopper-Java-Selenium/src/main/java/pages/CartPage.java:199-209 | A hidden match of an earlier alternative hides a displayed match of a later one. |
| Payment.MaskCardNumber | WeatherShopper-Java-Selenium/src/main/java/pages/PaymentPage.java:152-159 | A null or short number prints as four stars. It throws exactly when the whitespace-free number is shorter than four. Otherwise the result is stars followed by the last four characters of the whitespace-free number. |
| Payment.StripSpaces | WeatherShopper-Java-Selenium/src/main/java/pages/PaymentPage.java:99 | No whitespace character is left. |
| Payment.StripSpacesKeepsTheRest | WeatherShopper-Java-Selenium/src/main/java/pages/PaymentPage.java:156 | Exactly the whitespace is removed: every other character stays, and a number without whitespace is unchanged. |
| Payment.SecondMaskNeverFails | WeatherShopper-Java-Selenium/src/main/java/pages/PaymentPage.java:96-132 | Masking the cleaned number after typing cannot throw when masking the raw number did not. |
| Payment.MaskOfCleanCard | WeatherShopper-Java-Selenium/src/main/java/pages/PaymentPage.java:152-159 | A number without whitespace prints as stars and its own last four characters. |
| Payment.FieldEntryKeys | WeatherShopper-Java-Selenium/src/main/java/pages/PaymentPage.java:105-125 | Entering a field sends its text to that field and no keystroke to any other. |
| Payment.EnterEmail | WeatherShopper-Java-Selenium/src/main/java/pages/PaymentPage.java:60-89 | Never fails. It does nothing exactly when none of the three locators is visible. Otherwise it clears the first visible one and types the address there in one call. |
| Payment.EnterCardNumber | WeatherShopper-Java-Selenium/src/main/java/pages/PaymentPage.java:95-145 | The masking throws before any action. A hidden field times out. On success the entry holds the whitespace-free number, one keystroke per character. |
| Payment.EnterExpiryDate | WeatherShopper-Java-Selenium/src/main/java/pages/PaymentPage.java:166-211 | Succeeds exactly when the field is visible. It then types only the digits of the date. |
| Payment.EnterCvc | WeatherShopper-Java-Selenium/src/main/java/pages/PaymentPage.java:217-256 | Succeeds exactly when the field is visible. It then types the code verbatim. |
| Payment.EnterZipCode | WeatherShopper-Java-Selenium/src/main/java/pages/PaymentPage.java:262-304 | Never fails. It types exactly when the code is given, not blank, and the field is shown, and then it types the untrimmed code. |
| Payment.BlankZipTypesNothing | WeatherShopper-Java-Selenium/src/main/java/pages/PaymentPage.java:263-267 | A code of blanks only types nothing. |
| Payment.FillPaymentDetails | WeatherShopper-Java-Selenium/src/main/java/pages/PaymentPage.java:314-332 | Succeeds exactly when the card entry succeeds and the expiry and CVC fields are visible. The first failing step's error is the fill's error. |
| Payment.FillLogComplete | WeatherShopper-Java-Selenium/src/main/java/pages/PaymentPage.java:314-332 | A completed fill logs email, card, expiry, CVC and ZIP, in that order. |
| Payment.FillLogFailed | WeatherShopper-Java-Selenium/src/main/java/pages/PaymentPage.java:314-332 | A failed fill logs the steps up to and including the failing one, and nothing after it. |
| Payment.FillPaymentDetailsWithoutZip | WeatherShopper-Java-Selenium/src/main/java/pages/PaymentPage.java:341-343 | The four-argument overload behaves exactly as a fill with a blank ZIP code. |
| Payment.ClickPayButton | WeatherShopper-Java-Selenium/src/main/java/pages/PaymentPage.java:360-373 | Never fails. It clicks the submit-type button exactly when that is clickable. It clicks the id button exactly when the first is not displayed and the id button is clickable. Otherwise it clicks nothing. |
| Payment.CompletePayment | WeatherShopper-Java-Selenium/src/main/java/pages/PaymentPage.java:392-397 | The fields are looked up in the widget's frame when it appears, else in the outer document. The payment's outcome is the fill's outcome. A successful payment ends by switching back to the outer document. |
| Payment.CompletePaymentLog | WeatherShopper-Java-Selenium/src/main/java/pages/PaymentPage.java:392-397 | The log is frame entry, fill, submit click, switch back. A failed fill stops the log after the fill. |
| Payment.FillInOrder | WeatherShopper-Java-Selenium/src/main/java/pages/PaymentPage.java:314-332 | Every fill, successful or not, acts on the fields in protocol order: email, card, expiry, CVC, ZIP. |
| Payment.CompletePaymentInOrder | WeatherShopper-Java-Selenium/src/main/java/pages/PaymentPage.java:392-397 | The whole payment acts in protocol order: frame, email, card, expiry, CVC, ZIP, submit, switch back. |
| Payment.FailedFillStaysInFrame | WeatherShopper-Java-Selenium/src/main/java/pages/PaymentPage.java:392-397 | A failed fill never submits and never leaves the frame. |
| Payment.FrameEnteredFirstIffPresent | WeatherShopper-Java-Selenium/src/main/java/pages/PaymentPage.java:46-54 | The first action is entering the frame exactly when the widget's frame appears. |
| Payment.FillKeystrokes | WeatherShopper-Java-Selenium/src/main/java/pages/PaymentPage.java:314-332 | Per field, a completed fill sends: the whitespace-free card number, the digits of the expiry date, the CVC, and the ZIP code when it is typed. |
| Payment.PaymentKeysAreFillKeys | WeatherShopper-Java-Selenium/src/main/java/pages/PaymentPage.java:392-397 | Frame switches and the submit click carry no keystrokes. |
| Payment.CompletePaymentKeystrokes | WeatherShopper-Java-Selenium/src/main/java/pages/PaymentPage.java:95-304 | What each field receives over a successful payment, stated field by field. |
| Payment.GetSuccessMessage | WeatherShopper-Java-Selenium/src/main/java/pages/PaymentPage.java:418-470 | The message is never empty. It is heading and body on two lines, or whichever one is present and non-empty, or the fixed not-found sentinel. The body is the full body text when its lookup succeeded, and the shorter one only when that lookup threw. |
| Payment.MessageContainsParts | WeatherShopper-Java-Selenium/src/main/java/pages/PaymentPage.java:426-469 | The heading text and the body text, when read, occur in the message. |
| Payment.NotFoundFailsBoth | WeatherShopper-Java-Selenium/src/main/java/pages/PaymentPage.java:465-511 | The not-found sentinel passes neither `verifySuccessMessage` nor `verifyFullSuccessMessage`. |
| Payment.ConfirmationPagePasses | WeatherShopper-Java-Selenium/src/main/java/pages/PaymentPage.java:418-511 | The confirmation as the site renders it passes the heading, loose and full checks, and its message holds all three fragments. |
| Payment.HeadingAloneIsNotFull | WeatherShopper-Java-Selenium/src/main/java/pages/PaymentPage.java:489-511 | A heading without a body passes the loose check but not the full one. |
| Payment.VerifyPaymentSuccessHeading | WeatherShopper-Java-Selenium/src/main/java/pages/PaymentPage.java:476-483 | True exactly when the heading's first match is displayed. A missing heading is false, not an exception. |
| Payment.VerifySuccessMessage | WeatherShopper-Java-Selenium/src/main/java/pages/PaymentPage.java:489-494 | A shown "PAYMENT SUCCESS" heading is enough to pass. The not-found sentinel never passes. `Payment.SuccessChecksByParts` gives the full condition. |
| Payment.VerifyFullSuccessMessage | WeatherShopper-Java-Selenium/src/main/java/pages/PaymentPage.java:501-511 | Passing the full check implies passing the loose one. The not-found sentinel never passes. `Payment.SuccessChecksByParts` gives the full condition. |
| Payment.MessageContainsIffPart | WeatherShopper-Java-Selenium/src/main/java/pages/PaymentPage.java:426-469 | A fragment without a line break, which the sentinel lacks, occurs in the message exactly when it occurs in the shown heading or in the body text. No match can straddle the line break between them. |
| Payment.SuccessChecksByParts | WeatherShopper-Java-Selenium/src/main/java/pages/PaymentPage.java:489-511 | The loose check passes exactly when the main sentence or "PAYMENT SUCCESS" occurs in the shown heading or the body. A body holding the main sentence passes even without a heading. The full check passes exactly when the main sentence and the follow-up text each occur in the heading or the body. "PAYMENT SUCCESS" is not required for it. |
| Flow.OpenHome | WeatherShopper-Java-Selenium/src/test/java/tests/WeatherShopperTest.java:62-64 | The step navigates to the application once. It passes exactly when the page loads and the address contains "weathershopper". |
| Flow.VerifyHome | WeatherShopper-Java-Selenium/src/test/java/tests/WeatherShopperTest.java:68-71 | Passes exactly when both buy buttons are displayed. It acts on nothing. |
| Flow.ChooseCategory | WeatherShopper-Java-Selenium/src/test/java/tests/WeatherShopperTest.java:75-78 | Reading the temperature first and then navigating is the same as navigating. |
| Flow.CategoryFlow | WeatherShopper-Java-Selenium/src/test/java/tests/WeatherShopperTest.java:102-122 | The catalog step passes exactly when the page is loaded, both required picks are added, the badge shows 2 and the cart opens. The cart button is clicked only after both adds passed and the badge showed 2, and then it is the last action. A failed add or badge check never clicks it. An unloaded page acts on nothing. |
| Flow.AddProducts | WeatherShopper-Java-Selenium/src/test/java/tests/WeatherShopperTest.java:82-86 | The cart is opened only from the catalog the branch named, after both its adds passed and its badge showed 2. For each name the step passes exactly when that catalog's flow passes. Any other name runs nothing and passes. |
| Flow.VerifyCart | WeatherShopper-Java-Selenium/src/test/java/tests/WeatherShopperTest.java:152-173 | Passes exactly when the cart is loaded, has two rows, every row is readable, and the total is displayed and positive. |
| Flow.VerifyConfirmation | WeatherShopper-Java-Selenium/src/test/java/tests/WeatherShopperTest.java:202-229 | The confirmation step acts on nothing and passes exactly when all six assertions on the confirmation hold. |
| Flow.Step | WeatherShopper-Java-Selenium/src/test/java/tests/WeatherShopperTest.java:60-97 | A running test does its stage's work and appends its actions. It moves exactly one stage on when the work passes, and otherwise fails at that stage with the work's error. A failed or finished run is unchanged. |
| Flow.TraceProgress | WeatherShopper-Java-Selenium/src/test/java/tests/WeatherShopperTest.java:60-97 | Stages are reached one at a time and in order. A failure happens at a stage before the current step count. |
| Flow.FailureIsFinal | WeatherShopper-Java-Selenium/src/test/java/tests/WeatherShopperTest.java:60-97 | Once the run fails, it stays failed with the same stage, reason and log. |
| Flow.LogGrows | WeatherShopper-Java-Selenium/src/test/java/tests/WeatherShopperTest.java:60-97 | Every earlier log is a prefix of every later log. |
| Flow.RunningIffStepsPassed | WeatherShopper-Java-Selenium/src/test/java/tests/WeatherShopperTest.java:60-97 | After n steps the test is still running exactly when each of the first n steps passed. Its log is then their actions in order. |
| Flow.FirstFailureEndsRun | WeatherShopper-Java-Selenium/src/test/java/tests/WeatherShopperTest.java:60-97 | The first failing step ends the run at its stage, with its error and the actions up to and including it. |
| Flow.Finish | WeatherShopper-Java-Selenium/src/test/java/tests/WeatherShopperTest.java:60-97 | After all eight steps the run is confirmed exactly when every step passed, and its log is then all their actions. Otherwise it failed at a stage before the confirmation. `Run` is this for the test's own steps. |
| Flow.MildTemperatureFailsBranch | WeatherShopper-Java-Selenium/src/test/java/tests/WeatherShopperTest.java:75-78 | A temperature from 20 to 33 makes the branch step fail with the range error and no click. |
| Flow.MildTemperatureEndsRun | WeatherShopper-Java-Selenium/src/test/java/tests/WeatherShopperTest.java:60-86 | With that failure after a passing start, the run ends at the branch, having only navigated. No catalog, cart or payment step runs. |

## Left out

- Timing: every `Thread.sleep`, wait timeout and polling interval. A wait is
  decided by the snapshot, and a sleep is not an action.
- The snapshot is static within a page. For example, the cart badge is read
  from the catalog snapshot as it stands after both adds. How the browser
  moves between snapshots is not modelled.
- XPath semantics are given, not modelled. Each locator is already resolved
  to its matches. A `contains(text(), …)` test on the first text node is taken
  to agree with `getText()`.
- Hovering, the info icon and its pop-up (`hoverOverInfoIcon`, `clickInfoIcon`,
  `isTaskInstructionsVisible`), `getPageHeading`, `getTemperatureText`,
  `getTotalPrice`, `isPaymentSuccessful` and `waitForPaymentSuccess` only log
  or read text for logging.
- Console output, and the `getAttribute("value")` read-back after typing:
  both only print.
- Scrolling is logged as an action. Its effect on visibility is not modelled.
- `BasePage`, `DriverManager` and `CheckoutPage`: browser set-up and tear-down,
  and the shared wait helpers. The waits appear in `Dom` as checks on the
  snapshot.
- Null arguments other than the ZIP code. The test never passes null email,
  card, expiry or CVC values.
- Exceptions other than those named in `Dom.Error`. Each caught exception is
  one of the snapshot's outcomes, for example a body lookup that threw.
- Frame switching beyond the log. Looking up fields inside the frame is
  modelled by choosing the frame's form.
- Text.ParseInt: characters are Unicode scalar values and only ASCII digits
  count. `Integer.parseInt` also accepts other Unicode decimal digits, but
  every call site first removes everything except ASCII digits (and `-`).
- Payment.MaskCardNumber: Java's `length()` and `charAt` count UTF-16 code
  units, and a `char` here is a whole character. A card number with
  characters outside the Basic Multilingual Plane would be measured and
  typed differently; the same holds for the per-character `sendKeys` loops.
- Text.Lower: only ASCII letters are lower-cased. `String.toLowerCase` also
  lower-cases other letters, and is locale-dependent; the keywords matched
  are ASCII.
- Properties of a whole run are proved for any outcomes of the eight steps
  (`Flow.Steps`). They are not restated for a concrete `World` (the page
  snapshots), because that would unfold the whole page model in every proof.
  `Flow.StepsOf` and `Flow.Run` assemble the steps from a world as the test
  does. The step-level lemmas connect to a world through each step's own
  contract; `Flow.MildTemperatureFailsBranch` is one example.
