/** The payment widget: masking of the card number for the log, the exact
    keystrokes each field receives, the order in which the form is filled
    and submitted, and the reading of the confirmation page. */
module Payment {
  import opened Wrappers
  import opened Text
  import opened Dom

  /** The matches of the form's locators, in the document the form lives in. */
  datatype Form = Form(
    emailById: seq<Elem>, emailByType: seq<Elem>, emailByPlaceholder: seq<Elem>,
    cardNumber: seq<Elem>, expiry: seq<Elem>, cvc: seq<Elem>, zip: seq<Elem>,
    submitByType: seq<Elem>, submitById: seq<Elem>)

  /** The page after "Pay with Card": the widget's frame when one becomes
      available, and the outer document, where the fields are looked up when
      it does not. */
  datatype PaymentScreen = PaymentScreen(frame: Option<Form>, outer: Form)

  /** What the test types. A null ZIP code is `None`; the other fields are
      always given. */
  datatype PaymentDetails = PaymentDetails(
    email: string, cardNumber: string, expiryDate: string, cvc: string, zipCode: Option<string>)

  // ---------------------------------------------------------------- card masking

  /** `replaceAll("\\s+", "")`. */
  function StripSpaces(s: string): (r: string)
    ensures forall i :: 0 <= i < |r| ==> !IsRegexSpace(r[i])
  {
    Keep(s, IsNotRegexSpace)
  }

  /** Stripping removes exactly the whitespace: every other character stays,
      and a number without whitespace is left as it is. */
  lemma StripSpacesKeepsTheRest(s: string)
    ensures forall ch :: ch in StripSpaces(s) <==> ch in s && !IsRegexSpace(ch)
    ensures (forall i :: 0 <= i < |s| ==> !IsRegexSpace(s[i])) ==> StripSpaces(s) == s
  {
    KeepMembers(s, IsNotRegexSpace);
    if forall i :: 0 <= i < |s| ==> !IsRegexSpace(s[i]) {
      KeepAllOf(s, IsNotRegexSpace);
    }
  }

  function Stars(n: nat): (r: string)
    ensures |r| == n && forall i :: 0 <= i < n ==> r[i] == '*'
  {
    if n == 0 then [] else Stars(n - 1) + ['*']
  }

  /** `maskCardNumber`: a null or short number prints as four stars;
      otherwise every character of the whitespace-free number but the last
      four becomes a star. `"*".repeat` with a negative count throws when the
      stripped number is shorter than four characters. */
  function MaskCardNumber(card: Option<string>): (r: Result<string, Error>)
    ensures (card.None? || |card.value| < 4) ==> r == Success("****")
    ensures card.Some? && |card.value| >= 4 ==>
      (r.Failure? <==> |StripSpaces(card.value)| < 4)
    ensures r.Failure? ==> r.error == IllegalArgument
    ensures r.Success? && card.Some? && |card.value| >= 4 ==>
      (var clean := StripSpaces(card.value);
       |r.value| == |clean|
       && r.value[|clean| - 4..] == clean[|clean| - 4..]
       && forall i :: 0 <= i < |clean| - 4 ==> r.value[i] == '*')
  {
    if card.None? || |card.value| < 4 then Success("****")
    else
      var clean := StripSpaces(card.value);
      if |clean| < 4 then Failure(IllegalArgument)
      else Success(Stars(|clean| - 4) + clean[|clean| - 4..])
  }

  lemma {:induction false} StripSpacesOfStripped(s: string)
    ensures StripSpaces(StripSpaces(s)) == StripSpaces(s)
  {
    var clean := StripSpaces(s);
    KeepAllOf(clean, IsNotRegexSpace);
  }

  /** The second masking, of the cleaned number after typing, can never throw
      once the first, of the raw number, did not. */
  lemma SecondMaskNeverFails(card: string)
    requires MaskCardNumber(Some(card)).Success?
    ensures MaskCardNumber(Some(StripSpaces(card))).Success?
  {
    StripSpacesOfStripped(card);
  }

  /** A number without whitespace, such as "4242424242424242", prints as
      stars followed by its own last four characters. */
  lemma MaskOfCleanCard(card: string)
    requires |card| >= 4
    requires forall i :: 0 <= i < |card| ==> !IsRegexSpace(card[i])
    ensures MaskCardNumber(Some(card)) == Success(Stars(|card| - 4) + card[|card| - 4..])
  {
    KeepAllOf(card, IsNotRegexSpace);
  }

  // ---------------------------------------------------------------- field entry

  /** Focus, clear, then one keystroke per character. */
  function FieldEntry(field: Locator, s: string): (r: seq<Action>)
    ensures |r| == 2 + |s|
  {
    [Click(field), Clear(field)] + TypeKeys(field, s)
  }

  /** A field entry delivers its text to its own field and nothing to any other. */
  lemma FieldEntryKeys(field: Locator, s: string, target: Locator)
    ensures KeysSent(FieldEntry(field, s), target) == if target == field then s else []
  {
    KeysSentAppend([Click(field), Clear(field)], TypeKeys(field, s), target);
    KeysSentWithoutKeys([Click(field), Clear(field)], target);
    if target == field {
      KeysSentOfTypeKeys(field, s);
    } else {
      KeysSentOfOtherField(field, target, s);
    }
  }

  function EmailCandidates(form: Form): (r: seq<seq<Elem>>)
    ensures |r| == 3
  {
    [form.emailById, form.emailByType, form.emailByPlaceholder]
  }

  /** `enterEmail`: the first of id, input type and placeholder whose match
      is visible receives the whole address in one call; when none is, the
      field is skipped without an error. */
  function EnterEmail(form: Form, email: string): (r: Effect<()>)
    ensures r.result.Success?
    ensures r.actions == [] <==> forall k :: 0 <= k < 3 ==> !IsDisplayed(EmailCandidates(form)[k])
    ensures r.actions != [] ==>
      exists k :: (0 <= k < 3
        && IsDisplayed(EmailCandidates(form)[k])
        && (forall j :: 0 <= j < k ==> !IsDisplayed(EmailCandidates(form)[j]))
        && r.actions == [Clear(EmailField(k)), TypeText(EmailField(k), email)])
  {
    match FirstIndex(EmailCandidates(form), IsDisplayed)
    case None => Effect([], Success(()))
    case Some(k) => Effect([Clear(EmailField(k)), TypeText(EmailField(k), email)], Success(()))
  }

  /** `enterCardNumber`: the raw number is masked for the log before
      anything else, then the field must become visible; it receives the
      number with all whitespace removed, one keystroke per character. */
  function EnterCardNumber(form: Form, card: string): (r: Effect<()>)
    ensures MaskCardNumber(Some(card)).Failure? ==> r == Effect([], Failure(IllegalArgument))
    ensures MaskCardNumber(Some(card)).Success? && !IsDisplayed(form.cardNumber) ==>
      r == Effect([], Failure(Timeout(CardNumberField)))
    ensures r.result.Success? <==> MaskCardNumber(Some(card)).Success? && IsDisplayed(form.cardNumber)
    ensures r.result.Success? ==> r.actions == FieldEntry(CardNumberField, StripSpaces(card))
  {
    if MaskCardNumber(Some(card)).Failure? then Effect([], Failure(IllegalArgument))
    else if !IsDisplayed(form.cardNumber) then Effect([], Failure(Timeout(CardNumberField)))
    else Effect(FieldEntry(CardNumberField, StripSpaces(card)), Success(()))
  }

  /** `enterExpiryDate`: only the digits of the date are typed, so "12/26"
      and "1226" type the same keys. */
  function EnterExpiryDate(form: Form, expiry: string): (r: Effect<()>)
    ensures r.result.Success? <==> IsDisplayed(form.expiry)
    ensures r.result.Failure? ==> r == Effect([], Failure(Timeout(ExpiryField)))
    ensures r.result.Success? ==> r.actions == FieldEntry(ExpiryField, Digits(expiry))
  {
    if IsDisplayed(form.expiry) then Effect(FieldEntry(ExpiryField, Digits(expiry)), Success(()))
    else Effect([], Failure(Timeout(ExpiryField)))
  }

  /** `enterCVC`: the code is typed verbatim. */
  function EnterCvc(form: Form, cvc: string): (r: Effect<()>)
    ensures r.result.Success? <==> IsDisplayed(form.cvc)
    ensures r.result.Failure? ==> r == Effect([], Failure(Timeout(CvcField)))
    ensures r.result.Success? ==> r.actions == FieldEntry(CvcField, cvc)
  {
    if IsDisplayed(form.cvc) then Effect(FieldEntry(CvcField, cvc), Success(()))
    else Effect([], Failure(Timeout(CvcField)))
  }

  /** `enterZipCode`: a null or blank code is skipped, a code is typed
      verbatim (untrimmed), and a missing field is tolerated. */
  function EnterZipCode(form: Form, zip: Option<string>): (r: Effect<()>)
    ensures r.result.Success?
    ensures r.actions != [] <==> zip.Some? && Trim(zip.value) != [] && IsDisplayed(form.zip)
    ensures r.actions != [] ==> r.actions == FieldEntry(ZipField, zip.value)
  {
    if zip.None? || Trim(zip.value) == [] then Effect([], Success(()))
    else if !IsDisplayed(form.zip) then Effect([], Success(()))
    else Effect(FieldEntry(ZipField, zip.value), Success(()))
  }

  /** A code made only of blanks types nothing, whatever the form shows. */
  lemma BlankZipTypesNothing(form: Form, zip: string)
    requires forall i :: 0 <= i < |zip| ==> IsTrimmed(zip[i])
    ensures EnterZipCode(form, Some(zip)).actions == []
  {
    TrimEmptyIffBlank(zip);
  }

  /** `fillPaymentDetails`: email, card, expiry, CVC, ZIP, each after the
      previous returned; a failure of the card, expiry or CVC ends the fill
      with that failure, and the email and ZIP steps never fail. */
  function FillPaymentDetails(form: Form, d: PaymentDetails): (r: Effect<()>)
    ensures r.result.Success? <==>
      EnterCardNumber(form, d.cardNumber).result.Success? && IsDisplayed(form.expiry) && IsDisplayed(form.cvc)
    ensures EnterCardNumber(form, d.cardNumber).result.Failure? ==>
      r.result == EnterCardNumber(form, d.cardNumber).result
    ensures EnterCardNumber(form, d.cardNumber).result.Success? && !IsDisplayed(form.expiry) ==>
      r.result == Failure(Timeout(ExpiryField))
    ensures EnterCardNumber(form, d.cardNumber).result.Success? && IsDisplayed(form.expiry) && !IsDisplayed(form.cvc) ==>
      r.result == Failure(Timeout(CvcField))
  {
    var email := EnterEmail(form, d.email);
    var card := EnterCardNumber(form, d.cardNumber);
    var expiry := EnterExpiryDate(form, d.expiryDate);
    var cvc := EnterCvc(form, d.cvc);
    var zip := EnterZipCode(form, d.zipCode);
    AndThen(email, AndThen(card, AndThen(expiry, AndThen(cvc, zip))))
  }

  /** Five steps run one after another: when all return, the log is the five
      logs in order; when one fails, the log ends with the failing step. */
  lemma FiveStepLog(e: Effect<()>, c: Effect<()>, x: Effect<()>, v: Effect<()>, z: Effect<()>)
    requires e.result.Success?
    ensures var f := AndThen(e, AndThen(c, AndThen(x, AndThen(v, z))));
      (f.result.Success? ==> f.actions == e.actions + c.actions + x.actions + v.actions + z.actions)
      && (c.result.Failure? ==> f.actions == e.actions + c.actions)
      && (c.result.Success? && x.result.Failure? ==> f.actions == e.actions + c.actions + x.actions)
      && (c.result.Success? && x.result.Success? && v.result.Failure? ==>
            f.actions == e.actions + c.actions + x.actions + v.actions)
  {
    var vz := AndThen(v, z);
    var xvz := AndThen(x, vz);
    var cxvz := AndThen(c, xvz);
    if c.result.Success? && x.result.Success? && v.result.Success? {
      assert e.actions + (c.actions + (x.actions + (v.actions + z.actions)))
          == e.actions + c.actions + x.actions + v.actions + z.actions;
    }
    if c.result.Success? && x.result.Success? && v.result.Failure? {
      assert e.actions + (c.actions + (x.actions + v.actions)) == e.actions + c.actions + x.actions + v.actions;
    }
    if c.result.Success? && x.result.Failure? {
      assert e.actions + (c.actions + x.actions) == e.actions + c.actions + x.actions;
    }
  }

  /** A fill that completes logs its five steps one after the other. */
  lemma FillLogComplete(form: Form, d: PaymentDetails)
    requires FillPaymentDetails(form, d).result.Success?
    ensures FillPaymentDetails(form, d).actions == EnterEmail(form, d.email).actions
      + EnterCardNumber(form, d.cardNumber).actions + EnterExpiryDate(form, d.expiryDate).actions
      + EnterCvc(form, d.cvc).actions + EnterZipCode(form, d.zipCode).actions
  {
    FiveStepLog(EnterEmail(form, d.email), EnterCardNumber(form, d.cardNumber),
      EnterExpiryDate(form, d.expiryDate), EnterCvc(form, d.cvc), EnterZipCode(form, d.zipCode));
  }

  /** A fill that fails logs the steps up to and including the failing one,
      and nothing after it. */
  lemma FillLogFailed(form: Form, d: PaymentDetails)
    requires FillPaymentDetails(form, d).result.Failure?
    ensures var e := EnterEmail(form, d.email).actions;
      var c := EnterCardNumber(form, d.cardNumber);
      var x := EnterExpiryDate(form, d.expiryDate);
      var f := FillPaymentDetails(form, d).actions;
      if c.result.Failure? then f == e + c.actions
      else if x.result.Failure? then f == e + c.actions + x.actions
      else f == e + c.actions + x.actions + EnterCvc(form, d.cvc).actions
  {
    FiveStepLog(EnterEmail(form, d.email), EnterCardNumber(form, d.cardNumber),
      EnterExpiryDate(form, d.expiryDate), EnterCvc(form, d.cvc), EnterZipCode(form, d.zipCode));
  }

  /** The four-argument overload: a null ZIP code, which fills exactly as a
      blank one does. */
  function FillPaymentDetailsWithoutZip(form: Form, email: string, card: string, expiry: string, cvc: string): (r: Effect<()>)
    ensures r == FillPaymentDetails(form, PaymentDetails(email, card, expiry, cvc, Some("")))
  {
    FillPaymentDetails(form, PaymentDetails(email, card, expiry, cvc, None))
  }

  /** `clickPayButton`: the submit-type button when it is displayed,
      otherwise the `submitButton` id when that is; a button that is displayed
      but not clickable is caught, and the other is then not tried. */
  function ClickPayButton(form: Form): (r: Effect<()>)
    ensures r.result.Success?
    ensures r.actions == [Click(SubmitTypeButton)] <==> WaitClickable(form.submitByType).Some?
    ensures r.actions == [Click(SubmitIdButton)] <==>
      !IsDisplayed(form.submitByType) && WaitClickable(form.submitById).Some?
    ensures r.actions == [] || r.actions == [Click(SubmitTypeButton)] || r.actions == [Click(SubmitIdButton)]
  {
    var attempt :=
      if IsDisplayed(form.submitByType) then ClickWhenReady(form.submitByType, SubmitTypeButton)
      else if IsDisplayed(form.submitById) then ClickWhenReady(form.submitById, SubmitIdButton)
      else Effect([], Success(()));
    Effect(attempt.actions, Success(()))
  }

  /** The document the fields are looked up in: the widget's frame when it
      appears, the outer document otherwise. */
  function FormOf(screen: PaymentScreen): (form: Form)
    ensures screen.frame.Some? ==> form == screen.frame.value
    ensures screen.frame.None? ==> form == screen.outer
  {
    if screen.frame.Some? then screen.frame.value else screen.outer
  }

  /** `completePayment`: enter the widget's frame if it appears, fill the
      form, submit, return to the outer document. A failed fill ends the call
      inside the frame: the submit and the switch back never happen. */
  function CompletePayment(screen: PaymentScreen, d: PaymentDetails): (r: Effect<()>)
    ensures r.result == FillPaymentDetails(FormOf(screen), d).result
    ensures r.result.Success? ==> |r.actions| > 0 && r.actions[|r.actions| - 1] == LeaveFrame
  {
    var form := FormOf(screen);
    var enter := EnterIfFramed(screen);
    var fill := FillPaymentDetails(form, d);
    match fill.result
    case Failure(e) => Effect(enter + fill.actions, Failure(e))
    case Success(_) => Effect(enter + fill.actions + ClickPayButton(form).actions + [LeaveFrame], Success(()))
  }

  /** The frame switch that opens a payment. */
  function EnterIfFramed(screen: PaymentScreen): (r: seq<Action>)
    ensures r == [EnterFrame] <==> screen.frame.Some?
    ensures r == [] <==> screen.frame.None?
  {
    if screen.frame.Some? then [EnterFrame] else []
  }

  /** The log of a payment in terms of its parts. */
  lemma CompletePaymentLog(screen: PaymentScreen, d: PaymentDetails)
    ensures var fill := FillPaymentDetails(FormOf(screen), d);
      CompletePayment(screen, d).actions ==
        if fill.result.Success? then EnterIfFramed(screen) + fill.actions + ClickPayButton(FormOf(screen)).actions + [LeaveFrame]
        else EnterIfFramed(screen) + fill.actions
  {
  }

  // ---------------------------------------------------------------- order of the protocol

  const ZipPhase: nat := 5
  const SubmitPhase: nat := 6
  const LeavePhase: nat := 7

  /** The position of a field in the protocol. */
  function FieldPhase(t: Locator): nat
  {
    match t
    case EmailField(_) => 1
    case CardNumberField => 2
    case ExpiryField => 3
    case CvcField => 4
    case ZipField => ZipPhase
    case SubmitTypeButton => SubmitPhase
    case SubmitIdButton => SubmitPhase
    case _ => 8
  }

  /** The position of an action in the protocol: frame switch, the five
      fields in order, submit, switch back. */
  function Phase(a: Action): nat
  {
    match a
    case EnterFrame => 0
    case Click(t) => FieldPhase(t)
    case Clear(t) => FieldPhase(t)
    case Key(t, _) => FieldPhase(t)
    case TypeText(t, _) => FieldPhase(t)
    case LeaveFrame => LeavePhase
    case _ => 8
  }

  predicate InOrder(log: seq<Action>)
  {
    forall i, j :: 0 <= i < j < |log| ==> Phase(log[i]) <= Phase(log[j])
  }

  predicate Within(log: seq<Action>, lo: nat, hi: nat)
  {
    forall i :: 0 <= i < |log| ==> lo <= Phase(log[i]) <= hi
  }

  lemma WithinAppend(a: seq<Action>, b: seq<Action>, lo: nat, hi: nat)
    requires Within(a, lo, hi) && Within(b, lo, hi)
    ensures Within(a + b, lo, hi)
  {
    forall i | 0 <= i < |a + b| ensures lo <= Phase((a + b)[i]) <= hi {
      if i >= |a| { assert (a + b)[i] == b[i - |a|]; }
    }
  }

  /** An ordered log followed by an ordered log of later phases is ordered. */
  lemma InOrderAppend(a: seq<Action>, b: seq<Action>, lo: nat, m: nat, hi: nat)
    requires InOrder(a) && InOrder(b)
    requires lo <= m <= hi
    requires Within(a, lo, m) && Within(b, m, hi)
    ensures InOrder(a + b) && Within(a + b, lo, hi)
  {
    var ab := a + b;
    forall i, j | 0 <= i < j < |ab| ensures Phase(ab[i]) <= Phase(ab[j]) {
      if j < |a| {
        assert ab[i] == a[i] && ab[j] == a[j];
      } else if i >= |a| {
        assert ab[i] == b[i - |a|] && ab[j] == b[j - |a|];
      } else {
        assert ab[i] == a[i] && ab[j] == b[j - |a|];
      }
    }
    forall i | 0 <= i < |ab| ensures lo <= Phase(ab[i]) <= hi {
      if i >= |a| { assert ab[i] == b[i - |a|]; } else { assert ab[i] == a[i]; }
    }
  }

  /** A log of one phase is ordered. */
  lemma SinglePhase(log: seq<Action>, p: nat)
    requires Within(log, p, p)
    ensures InOrder(log)
  {
  }

  lemma FieldEntryWithin(field: Locator, s: string)
    ensures Within(FieldEntry(field, s), FieldPhase(field), FieldPhase(field))
    ensures InOrder(FieldEntry(field, s))
  {
    var r := FieldEntry(field, s);
    forall i | 0 <= i < |r| ensures Phase(r[i]) == FieldPhase(field) {
      if i >= 2 {
        assert r[i] == TypeKeys(field, s)[i - 2];
      }
    }
    SinglePhase(r, FieldPhase(field));
  }

  /** Every step of the fill acts on its own field only. */
  lemma EmailPhase(form: Form, email: string)
    ensures Within(EnterEmail(form, email).actions, 1, 1)
  {
  }

  lemma CardPhase(form: Form, card: string)
    ensures Within(EnterCardNumber(form, card).actions, 2, 2)
  {
    FieldEntryWithin(CardNumberField, StripSpaces(card));
  }

  lemma ExpiryPhase(form: Form, expiry: string)
    ensures Within(EnterExpiryDate(form, expiry).actions, 3, 3)
  {
    FieldEntryWithin(ExpiryField, Digits(expiry));
  }

  lemma CvcPhase(form: Form, cvc: string)
    ensures Within(EnterCvc(form, cvc).actions, 4, 4)
  {
    FieldEntryWithin(CvcField, cvc);
  }

  /** A step that either does nothing or enters one field stays in that field's phase. */
  lemma OptionalEntryWithin(log: seq<Action>, field: Locator, s: string)
    requires log == [] || log == FieldEntry(field, s)
    ensures Within(log, FieldPhase(field), FieldPhase(field))
  {
    if log != [] {
      FieldEntryWithin(field, s);
    }
  }

  lemma ZipPhaseOnly(form: Form, zip: Option<string>)
    ensures Within(EnterZipCode(form, zip).actions, ZipPhase, ZipPhase)
  {
    OptionalEntryWithin(EnterZipCode(form, zip).actions, ZipField, if zip.Some? then zip.value else []);
  }

  lemma StepPhases(form: Form, d: PaymentDetails)
    ensures Within(EnterEmail(form, d.email).actions, 1, 1)
    ensures Within(EnterCardNumber(form, d.cardNumber).actions, 2, 2)
    ensures Within(EnterExpiryDate(form, d.expiryDate).actions, 3, 3)
    ensures Within(EnterCvc(form, d.cvc).actions, 4, 4)
    ensures Within(EnterZipCode(form, d.zipCode).actions, ZipPhase, ZipPhase)
  {
    EmailPhase(form, d.email);
    CardPhase(form, d.cardNumber);
    ExpiryPhase(form, d.expiryDate);
    CvcPhase(form, d.cvc);
    ZipPhaseOnly(form, d.zipCode);
  }

  /** Five logs of the phases 1 to 5, one each, make ordered prefixes. */
  lemma FivePhasesInOrder(e: seq<Action>, c: seq<Action>, x: seq<Action>, v: seq<Action>, z: seq<Action>)
    requires Within(e, 1, 1) && Within(c, 2, 2) && Within(x, 3, 3) && Within(v, 4, 4)
    requires Within(z, ZipPhase, ZipPhase)
    ensures InOrder(e + c) && Within(e + c, 1, ZipPhase)
    ensures InOrder(e + c + x) && Within(e + c + x, 1, ZipPhase)
    ensures InOrder(e + c + x + v) && Within(e + c + x + v, 1, ZipPhase)
    ensures InOrder(e + c + x + v + z) && Within(e + c + x + v + z, 1, ZipPhase)
  {
    SinglePhase(e, 1);
    SinglePhase(c, 2);
    SinglePhase(x, 3);
    SinglePhase(v, 4);
    SinglePhase(z, ZipPhase);
    InOrderAppend(e, c, 1, 1, 2);
    InOrderAppend(e + c, x, 1, 2, 3);
    InOrderAppend(e + c + x, v, 1, 3, 4);
    InOrderAppend(e + c + x + v, z, 1, 4, ZipPhase);
  }

  /** A fill, successful or not, runs its fields in protocol order. */
  lemma FillInOrder(form: Form, d: PaymentDetails)
    ensures InOrder(FillPaymentDetails(form, d).actions)
    ensures Within(FillPaymentDetails(form, d).actions, 1, ZipPhase)
  {
    StepPhases(form, d);
    FivePhasesInOrder(EnterEmail(form, d.email).actions, EnterCardNumber(form, d.cardNumber).actions,
      EnterExpiryDate(form, d.expiryDate).actions, EnterCvc(form, d.cvc).actions, EnterZipCode(form, d.zipCode).actions);
    if FillPaymentDetails(form, d).result.Success? {
      FillLogComplete(form, d);
    } else {
      FillLogFailed(form, d);
    }
  }

  lemma EnterPhase(screen: PaymentScreen)
    ensures Within(EnterIfFramed(screen), 0, 0) && InOrder(EnterIfFramed(screen))
  {
  }

  lemma SubmitPhaseOnly(form: Form)
    ensures Within(ClickPayButton(form).actions, SubmitPhase, SubmitPhase)
    ensures InOrder(ClickPayButton(form).actions)
  {
  }

  /** The whole payment runs in protocol order: frame, email, card, expiry,
      CVC, ZIP, submit, switch back. */
  lemma CompletePaymentInOrder(screen: PaymentScreen, d: PaymentDetails)
    ensures InOrder(CompletePayment(screen, d).actions)
  {
    var form := FormOf(screen);
    var enter := EnterIfFramed(screen);
    var fill := FillPaymentDetails(form, d);
    var p := ClickPayButton(form).actions;
    CompletePaymentLog(screen, d);
    EnterPhase(screen);
    FillInOrder(form, d);
    SubmitPhaseOnly(form);
    InOrderAppend(enter, fill.actions, 0, 0, ZipPhase);
    if fill.result.Success? {
      InOrderAppend(enter + fill.actions, p, 0, ZipPhase, SubmitPhase);
      InOrderAppend(enter + fill.actions + p, [LeaveFrame], 0, SubmitPhase, LeavePhase);
    }
  }

  /** A log that stays before the submit phase holds no switch back. */
  lemma NoLeaveBeforeSubmit(log: seq<Action>)
    requires Within(log, 0, ZipPhase)
    ensures LeaveFrame !in log
  {
  }

  /** A failed fill never submits and never leaves the frame. */
  lemma FailedFillStaysInFrame(screen: PaymentScreen, d: PaymentDetails)
    requires FillPaymentDetails(FormOf(screen), d).result.Failure?
    ensures Within(CompletePayment(screen, d).actions, 0, ZipPhase)
    ensures LeaveFrame !in CompletePayment(screen, d).actions
  {
    var fill := FillPaymentDetails(FormOf(screen), d).actions;
    CompletePaymentLog(screen, d);
    FillInOrder(FormOf(screen), d);
    EnterPhase(screen);
    WithinAppend(EnterIfFramed(screen), fill, 0, ZipPhase);
    NoLeaveBeforeSubmit(EnterIfFramed(screen) + fill);
  }

  /** The frame is entered first exactly when the widget's frame appears. */
  lemma FrameEnteredFirstIffPresent(screen: PaymentScreen, d: PaymentDetails)
    ensures var r := CompletePayment(screen, d).actions;
      (|r| > 0 && r[0] == EnterFrame) <==> screen.frame.Some?
  {
    var form := FormOf(screen);
    var f := FillPaymentDetails(form, d).actions;
    FillInOrder(form, d);
    var r := CompletePayment(screen, d).actions;
    if screen.frame.None? && |r| > 0 {
      if |f| > 0 {
        assert r[0] == f[0];
        assert Phase(r[0]) >= 1;
      }
    }
  }

  /** A field entry adds its text to the keystrokes of its own field only. */
  lemma KeysAfterEntry(prefix: seq<Action>, field: Locator, s: string, t: Locator)
    ensures KeysSent(prefix + FieldEntry(field, s), t) == KeysSent(prefix, t) + (if t == field then s else [])
  {
    KeysSentAppend(prefix, FieldEntry(field, s), t);
    FieldEntryKeys(field, s, t);
  }

  /** The keystrokes of a log made of a keystroke-free prefix, the card,
      expiry and CVC entries, and a ZIP entry or nothing. */
  lemma EntryLogKeys(e: seq<Action>, card: string, expiry: string, cvc: string, z: seq<Action>, zip: string, t: Locator)
    requires forall i :: 0 <= i < |e| ==> !e[i].Key?
    requires z == [] || z == FieldEntry(ZipField, zip)
    ensures KeysSent(e + FieldEntry(CardNumberField, card) + FieldEntry(ExpiryField, expiry)
                     + FieldEntry(CvcField, cvc) + z, t) ==
      (if t == CardNumberField then card else []) + (if t == ExpiryField then expiry else [])
      + (if t == CvcField then cvc else []) + (if t == ZipField && z != [] then zip else [])
  {
    var l1 := e + FieldEntry(CardNumberField, card);
    var l2 := l1 + FieldEntry(ExpiryField, expiry);
    var l3 := l2 + FieldEntry(CvcField, cvc);
    KeysSentWithoutKeys(e, t);
    KeysAfterEntry(e, CardNumberField, card, t);
    KeysAfterEntry(l1, ExpiryField, expiry, t);
    KeysAfterEntry(l2, CvcField, cvc, t);
    if z == [] {
      assert l3 + z == l3;
    } else {
      KeysAfterEntry(l3, ZipField, zip, t);
    }
  }

  /** The keystrokes of a completed fill, per field. */
  lemma FillKeystrokes(form: Form, d: PaymentDetails, t: Locator)
    requires FillPaymentDetails(form, d).result.Success?
    ensures KeysSent(FillPaymentDetails(form, d).actions, t) ==
      (if t == CardNumberField then StripSpaces(d.cardNumber) else [])
      + (if t == ExpiryField then Digits(d.expiryDate) else [])
      + (if t == CvcField then d.cvc else [])
      + (if t == ZipField && EnterZipCode(form, d.zipCode).actions != [] then d.zipCode.value else [])
  {
    var e := EnterEmail(form, d.email).actions;
    var z := EnterZipCode(form, d.zipCode).actions;
    var zip: string := if d.zipCode.Some? then d.zipCode.value else [];
    FillLogComplete(form, d);
    assert forall i :: 0 <= i < |e| ==> !e[i].Key?;
    EntryLogKeys(e, StripSpaces(d.cardNumber), Digits(d.expiryDate), d.cvc, z, zip, t);
  }

  /** Wrapping a log between keystroke-free actions keeps its keystrokes. */
  lemma KeysOfWrappedLog(log: seq<Action>, enter: seq<Action>, f: seq<Action>, p: seq<Action>, ok: bool, t: Locator)
    requires forall i :: 0 <= i < |enter| ==> !enter[i].Key?
    requires forall i :: 0 <= i < |p| ==> !p[i].Key?
    requires log == if ok then enter + f + p + [LeaveFrame] else enter + f
    ensures KeysSent(log, t) == KeysSent(f, t)
  {
    KeysSentWithoutKeys(enter, t);
    KeysSentWithoutKeys(p, t);
    KeysSentWithoutKeys([LeaveFrame], t);
    KeysSentAppend(enter, f, t);
    if ok {
      KeysSentAppend(enter + f, p, t);
      KeysSentAppend(enter + f + p, [LeaveFrame], t);
    }
  }

  /** The frame switches and the submit click carry no keystrokes. */
  lemma PaymentKeysAreFillKeys(screen: PaymentScreen, d: PaymentDetails, t: Locator)
    ensures KeysSent(CompletePayment(screen, d).actions, t) == KeysSent(FillPaymentDetails(FormOf(screen), d).actions, t)
  {
    var fill := FillPaymentDetails(FormOf(screen), d);
    var p := ClickPayButton(FormOf(screen)).actions;
    CompletePaymentLog(screen, d);
    assert forall i :: 0 <= i < |p| ==> !p[i].Key?;
    KeysOfWrappedLog(CompletePayment(screen, d).actions, EnterIfFramed(screen), fill.actions, p, fill.result.Success?, t);
  }

  /** What each field receives over a successful payment: the card without
      whitespace, the digits of the expiry date, the CVC verbatim, and the ZIP
      code verbatim when it is given, not blank and its field is shown. */
  lemma CompletePaymentKeystrokes(screen: PaymentScreen, d: PaymentDetails)
    requires CompletePayment(screen, d).result.Success?
    ensures var r := CompletePayment(screen, d).actions;
      KeysSent(r, CardNumberField) == StripSpaces(d.cardNumber)
      && KeysSent(r, ExpiryField) == Digits(d.expiryDate)
      && KeysSent(r, CvcField) == d.cvc
      && KeysSent(r, ZipField) == (if EnterZipCode(FormOf(screen), d.zipCode).actions != [] then d.zipCode.value else [])
  {
    var form := FormOf(screen);
    PaymentKeysAreFillKeys(screen, d, CardNumberField);
    PaymentKeysAreFillKeys(screen, d, ExpiryField);
    PaymentKeysAreFillKeys(screen, d, CvcField);
    PaymentKeysAreFillKeys(screen, d, ZipField);
    FillKeystrokes(form, d, CardNumberField);
    FillKeystrokes(form, d, ExpiryField);
    FillKeystrokes(form, d, CvcField);
    FillKeystrokes(form, d, ZipField);
  }

  /** The keystrokes of the five fill steps, split by step. */
  lemma FillKeys(e: seq<Action>, c: seq<Action>, x: seq<Action>, v: seq<Action>, z: seq<Action>, t: Locator)
    ensures KeysSent(e + c + x + v + z, t)
      == KeysSent(e, t) + KeysSent(c, t) + KeysSent(x, t) + KeysSent(v, t) + KeysSent(z, t)
  {
    KeysSentAppend(e + c + x + v, z, t);
    KeysSentAppend(e + c + x, v, t);
    KeysSentAppend(e + c, x, t);
    KeysSentAppend(e, c, t);
  }

  // ---------------------------------------------------------------- confirmation page

  /** The confirmation page. A body lookup that threw something other than
      "no such element" is `None`; only then is the shorter body text tried. */
  datatype SuccessPage = SuccessPage(heading: seq<Elem>, body: Option<seq<Elem>>, bodyAlt: Option<seq<Elem>>)

  const HeadingFragment: string := "PAYMENT SUCCESS"
  const MainFragment: string := "Your payment was successful"
  const FollowUpFragment: string := "follow-up call from our sales team"
  /** The body the site renders: the main sentence, then the follow-up text. */
  const FullBody: string := MainFragment + ". You should receive a " + FollowUpFragment + "."
  const NotFound: string := "Success message not found"

  /** The text of the first match when it is displayed. */
  function ShownText(ms: seq<Elem>): (r: Option<string>)
    ensures r.Some? <==> IsDisplayed(ms)
    ensures r.Some? ==> r.value == ms[0].text
  {
    if IsDisplayed(ms) then Some(ms[0].text) else None
  }

  /** The body part of the message: the full body text when its lookup
      succeeds, the shorter one only when that lookup threw. */
  function BodyText(page: SuccessPage): (r: Option<string>)
    ensures page.body.Some? ==> r == ShownText(page.body.value)
    ensures page.body.None? && page.bodyAlt.Some? ==> r == ShownText(page.bodyAlt.value)
    ensures page.body.None? && page.bodyAlt.None? ==> r.None?
  {
    match page.body
    case Some(ms) => ShownText(ms)
    case None =>
      match page.bodyAlt
      case Some(ms) => ShownText(ms)
      case None => None
  }

  /** Append a part, separated by a line break when something precedes it. */
  function AppendLine(acc: string, part: string): (r: string)
    ensures |acc| > 0 ==> r == acc + "\n" + part
    ensures |acc| == 0 ==> r == part
  {
    if |acc| > 0 then acc + "\n" + part else acc + part
  }

  /** `getSuccessMessage`: the heading, then the body on its own line, or a
      fixed sentinel when both are missing or empty. */
  function GetSuccessMessage(page: SuccessPage): (r: string)
    ensures |r| > 0
    ensures var h := ShownText(page.heading); var b := BodyText(page);
      (h.Some? && |h.value| > 0 && b.Some? ==> r == h.value + "\n" + b.value)
      && (h.Some? && |h.value| > 0 && b.None? ==> r == h.value)
      && ((h.None? || |h.value| == 0) && b.Some? && |b.value| > 0 ==> r == b.value)
      && ((h.None? || |h.value| == 0) && (b.None? || |b.value| == 0) ==> r == NotFound)
  {
    var acc := match ShownText(page.heading) case Some(h) => h case None => "";
    var full := match BodyText(page) case Some(b) => AppendLine(acc, b) case None => acc;
    if |full| == 0 then NotFound else full
  }

  /** `verifyPaymentSuccessHeading`: the heading is shown; a missing heading
      is `false`, not an exception. */
  function VerifyPaymentSuccessHeading(page: SuccessPage): (b: bool)
    ensures b <==> |page.heading| > 0 && page.heading[0].displayed
  {
    IsDisplayed(page.heading)
  }

  /** `verifySuccessMessage`: either the main sentence or the heading occurs.
      A shown "PAYMENT SUCCESS" heading alone passes; the sentinel never does. */
  function VerifySuccessMessage(page: SuccessPage): (b: bool)
    ensures ShownText(page.heading) == Some(HeadingFragment) ==> b
    ensures GetSuccessMessage(page) == NotFound ==> !b
  {
    MessageContainsParts(page);
    NotFoundLacksFragments(GetSuccessMessage(page));
    var m := GetSuccessMessage(page);
    Contains(m, MainFragment) || Contains(m, HeadingFragment)
  }

  /** `verifyFullSuccessMessage`: the main sentence and the follow-up text
      both occur; the "PAYMENT SUCCESS" fragment is not required. It is stricter than
      `verifySuccessMessage`, and the sentinel never passes it. */
  function VerifyFullSuccessMessage(page: SuccessPage): (b: bool)
    ensures b ==> VerifySuccessMessage(page)
    ensures GetSuccessMessage(page) == NotFound ==> !b
  {
    NotFoundLacksFragments(GetSuccessMessage(page));
    var m := GetSuccessMessage(page);
    Contains(m, MainFragment) && Contains(m, FollowUpFragment)
  }

  /** The parts that make up the message occur in it. */
  lemma MessageContainsParts(page: SuccessPage)
    ensures var m := GetSuccessMessage(page);
      (ShownText(page.heading).Some? ==> Contains(m, ShownText(page.heading).value))
      && (BodyText(page).Some? ==> Contains(m, BodyText(page).value))
  {
    var m := GetSuccessMessage(page);
    var h := ShownText(page.heading);
    var b := BodyText(page);
    if h.Some? && |h.value| > 0 && b.Some? {
      ContainsInfix([], h.value, "\n" + b.value);
      assert [] + h.value + ("\n" + b.value) == m;
      ContainsInfix(h.value + "\n", b.value, []);
      assert h.value + "\n" + b.value + [] == m;
    } else if h.Some? && |h.value| > 0 {
      ContainsInfix([], h.value, []);
      assert [] + h.value + [] == m;
    } else if b.Some? && |b.value| > 0 {
      ContainsInfix([], b.value, []);
      assert [] + b.value + [] == m;
    }
    if h.Some? && |h.value| == 0 {
      ContainsInfix([], [], m);
      assert [] + [] + m == m;
    }
    if b.Some? && |b.value| == 0 {
      ContainsInfix([], [], m);
      assert [] + [] + m == m;
    }
  }

  /** `f` occurs in the shown heading text or in the body text. */
  predicate PartsContain(page: SuccessPage, f: string)
  {
    (ShownText(page.heading).Some? && Contains(ShownText(page.heading).value, f))
    || (BodyText(page).Some? && Contains(BodyText(page).value, f))
  }

  /** A fragment without a line break that the sentinel lacks occurs in the
      message exactly when it occurs in the heading or the body: no match
      straddles the line break between them. */
  lemma MessageContainsIffPart(page: SuccessPage, f: string)
    requires '\n' !in f
    requires !Contains(NotFound, f)
    ensures Contains(GetSuccessMessage(page), f) <==> PartsContain(page, f)
  {
    var m := GetSuccessMessage(page);
    var h := ShownText(page.heading);
    var b := BodyText(page);
    assert |f| > 0;
    assert !Contains([], f);
    if h.Some? && |h.value| > 0 && b.Some? {
      assert m == h.value + ['\n'] + b.value;
      ContainsAcrossSeparator(h.value, '\n', b.value, f);
    }
  }

  /** The two message checks in terms of the page: the loose one passes iff
      the main sentence or "PAYMENT SUCCESS" occurs in the heading or the
      body; the full one iff the main sentence and the follow-up text each
      occur in one of them, whatever the heading says. */
  lemma SuccessChecksByParts(page: SuccessPage)
    ensures VerifySuccessMessage(page) <==> PartsContain(page, MainFragment) || PartsContain(page, HeadingFragment)
    ensures VerifyFullSuccessMessage(page) <==> PartsContain(page, MainFragment) && PartsContain(page, FollowUpFragment)
  {
    FragmentsSafe(MainFragment, HeadingFragment, FollowUpFragment, NotFound);
    MessageContainsIffPart(page, MainFragment);
    MessageContainsIffPart(page, HeadingFragment);
    MessageContainsIffPart(page, FollowUpFragment);
  }

  /** None of the three fragments holds a line break or occurs in the sentinel. */
  lemma FragmentsSafe(main: string, heading: string, followUp: string, sentinel: string)
    requires main == MainFragment && heading == HeadingFragment && followUp == FollowUpFragment
    requires sentinel == NotFound
    ensures '\n' !in main && '\n' !in heading && '\n' !in followUp
    ensures !Contains(sentinel, main) && !Contains(sentinel, heading) && !Contains(sentinel, followUp)
  {
    NoLineBreak(main);
    NoLineBreak(heading);
    NoLineBreak(followUp);
    NotFoundLacksMain(sentinel);
    NotFoundLacksHeading(sentinel);
    NotFoundLacksFollowUp(sentinel);
  }

  /** The fragments are single lines. */
  lemma NoLineBreak(f: string)
    requires f == MainFragment || f == HeadingFragment || f == FollowUpFragment
    ensures '\n' !in f
  {
  }

  /** The sentinel is shorter than the follow-up text. */
  lemma NotFoundLacksFollowUp(m: string)
    requires m == NotFound
    ensures !Contains(m, FollowUpFragment)
  {
    if Contains(m, FollowUpFragment) {
      ContainsNoLonger(m, FollowUpFragment);
    }
  }

  /** A string contains nothing longer than itself. */
  lemma {:induction false} ContainsNoLonger(s: string, sub: string)
    requires Contains(s, sub)
    ensures |sub| <= |s|
    decreases |s|
  {
    if !StartsWith(s, sub) {
      ContainsNoLonger(s[1..], sub);
    }
  }

  /** The sentinel is shorter than the main sentence. */
  lemma NotFoundLacksMain(m: string)
    requires m == NotFound
    ensures !Contains(m, MainFragment)
  {
    if Contains(m, MainFragment) {
      ContainsNoLonger(m, MainFragment);
    }
  }

  /** The sentinel has no capital P, so it cannot hold the heading. */
  lemma NotFoundLacksHeading(m: string)
    requires m == NotFound
    ensures !Contains(m, HeadingFragment)
  {
    assert 'P' !in m;
    MissingFirstChar(m, HeadingFragment);
  }

  /** A string lacking the first character of `sub` does not contain `sub`. */
  lemma MissingFirstChar(s: string, sub: string)
    requires |sub| > 0 && sub[0] !in s
    ensures !Contains(s, sub)
  {
    if Contains(s, sub) {
      ContainedCharsOccur(s, sub, 0);
    }
  }

  /** Neither the main sentence nor the heading occurs in the sentinel. */
  lemma NotFoundLacksFragments(m: string)
    ensures m == NotFound ==> !Contains(m, MainFragment) && !Contains(m, HeadingFragment)
  {
    if m == NotFound {
      NotFoundLacksMain(m);
      NotFoundLacksHeading(m);
    }
  }

  /** The sentinel satisfies neither verification. */
  lemma NotFoundFailsBoth(page: SuccessPage)
    requires GetSuccessMessage(page) == NotFound
    ensures !VerifySuccessMessage(page) && !VerifyFullSuccessMessage(page)
  {
    NotFoundLacksMain(GetSuccessMessage(page));
    NotFoundLacksHeading(GetSuccessMessage(page));
  }

  /** `sub` occurs in any string assembled around it. */
  lemma ContainsAt(s: string, pre: string, sub: string, post: string)
    requires s == pre + sub + post
    ensures Contains(s, sub)
  {
    ContainsInfix(pre, sub, post);
  }

  /** A heading line over a body made of a main sentence and a follow-up
      text holds all three. */
  lemma MessageFragments(m: string, heading: string, main: string, followUp: string)
    requires m == heading + "\n" + (main + ". You should receive a " + followUp + ".")
    ensures Contains(m, heading) && Contains(m, main) && Contains(m, followUp)
  {
    var mid := ". You should receive a ";
    ContainsAt(m, [], heading, "\n" + (main + mid + followUp + "."));
    ContainsAt(m, heading + "\n", main, mid + followUp + ".");
    ContainsAt(m, heading + "\n" + main + mid, followUp, ".");
  }

  /** The confirmation page as the site renders it passes every check the
      test makes, and the message holds all three fragments. */
  lemma ConfirmationPagePasses(page: SuccessPage)
    requires IsDisplayed(page.heading) && page.heading[0].text == HeadingFragment
    requires page.body.Some? && IsDisplayed(page.body.value) && page.body.value[0].text == FullBody
    ensures VerifyPaymentSuccessHeading(page)
    ensures VerifySuccessMessage(page) && VerifyFullSuccessMessage(page)
    ensures var m := GetSuccessMessage(page);
      Contains(m, HeadingFragment) && Contains(m, MainFragment) && Contains(m, FollowUpFragment)
  {
    MessageFragments(GetSuccessMessage(page), HeadingFragment, MainFragment, FollowUpFragment);
  }

  /** A heading alone passes the loose check but not the full one. */
  lemma HeadingAloneIsNotFull(page: SuccessPage)
    requires IsDisplayed(page.heading) && page.heading[0].text == HeadingFragment
    requires BodyText(page).None?
    ensures VerifySuccessMessage(page) && !VerifyFullSuccessMessage(page)
  {
    var m := GetSuccessMessage(page);
    ContainsAt(m, [], HeadingFragment, []);
    if Contains(m, MainFragment) {
      ContainsNoLonger(m, MainFragment);
    }
  }
}
