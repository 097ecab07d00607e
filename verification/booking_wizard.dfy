/** The customer-facing booking page of src/pages/Booking.tsx: a four-step
    wizard (choose a service, choose a date and time, fill in the details,
    confirmation) with a back button. The page's date is formatted from the
    browser's clock; it is an argument here. */
module BookingWizard {
  import opened Common

  const FirstStep: nat := 1
  const LastStep: nat := 4

  /** The demo time the date step always picks. */
  const DemoTime: string := "10:30"

  /** A service as the page's hard-coded catalogue lists it. */
  datatype Offer = Offer(id: string, name: string, duration: int, price: int)

  /** The page's state: the step shown and what has been chosen so far.
      Date and time start as the empty string, as in the page. The details
      form of step 3 reports a submission only 1.5 seconds later:
      `submitting` is the mounted form's own flag, which disables its submit
      button, and `pending` counts the submissions whose timer has not yet
      fired. A timer still fires after its form has gone from the screen. */
  datatype Wizard = Wizard(step: int, service: Option<Offer>, date: string, time: string,
                           submitting: bool, pending: nat)

  /** The state the page mounts with. */
  const Initial: Wizard := Wizard(FirstStep, None, "", "", false, 0)

  predicate InRange(w: Wizard) {
    FirstStep <= w.step <= LastStep
  }

  /** `handleSelectService`: remember the service, go to the date step. */
  function SelectService(w: Wizard, offer: Offer): (r: Wizard)
    ensures r.step == 2 && r.service == Some(offer)
    ensures r.date == w.date && r.time == w.time
  {
    w.(service := Some(offer), step := 2)
  }

  /** `handleSelectDateTime`: take today's formatted date and the demo time,
      go to the details step. */
  function SelectDateTime(w: Wizard, today: string): (r: Wizard)
    ensures r.step == 3 && r.date == today && r.time == DemoTime
    ensures r.service == w.service
  {
    w.(date := today, time := DemoTime, step := 3)
  }

  /** `handleAppointmentSubmit`, called when a submission's timer fires: go
      to the confirmation step, whatever step is shown. */
  function Submit(w: Wizard): (r: Wizard)
    ensures r.step == LastStep
    ensures r.service == w.service && r.date == w.date && r.time == w.time
  {
    w.(step := 4)
  }

  /** `handleBack`: one step back, never before the first; the choices made
      are kept. */
  function Back(w: Wizard): (r: Wizard)
    ensures w.step > FirstStep ==> r.step == w.step - 1
    ensures w.step <= FirstStep ==> r == w
    ensures r.service == w.service && r.date == w.date && r.time == w.time
  {
    if w.step > 1 then w.(step := w.step - 1) else w
  }

  /** The details form's `handleSubmit` with valid fields: the form marks
      itself as submitting and starts its timer; the step does not change
      yet. */
  function SubmitForm(w: Wizard): (r: Wizard)
    ensures r.step == w.step && r.submitting && r.pending == w.pending + 1
    ensures r.service == w.service && r.date == w.date && r.time == w.time
  {
    w.(submitting := true, pending := w.pending + 1)
  }

  /** Whatever the user clicks, and the form's timer firing. */
  datatype Event =
    | ChooseService(offer: Offer)
    | ChooseDateTime(today: string)
    | Confirm
    | TimerFires
    | GoBack

  /** A change of step unmounts the details form; a form shown again starts
      with its submit button enabled. */
  function Remount(before: Wizard, after: Wizard): (r: Wizard)
    ensures r.step == after.step && r.service == after.service && r.pending == after.pending
    ensures r.submitting == (after.submitting && after.step == before.step)
  {
    if after.step == before.step then after else after.(submitting := false)
  }

  /** The page's handlers and the form's timer, whatever step is shown. */
  function Apply(w: Wizard, e: Event): (r: Wizard)
    ensures InRange(w) ==> InRange(r)
    ensures e.GoBack? ==> r.step <= w.step
    ensures e.Confirm? ==> r.step == w.step && r.pending == w.pending + 1
    ensures !e.GoBack? && !e.Confirm? ==> FirstStep < r.step
  {
    match e
    case ChooseService(offer) => Remount(w, SelectService(w, offer))
    case ChooseDateTime(today) => Remount(w, SelectDateTime(w, today))
    case Confirm => SubmitForm(w)
    case TimerFires => Remount(w, Submit(w).(pending := if w.pending > 0 then w.pending - 1 else 0))
    case GoBack => Remount(w, Back(w))
  }

  /** The event can happen: the service cards on step 1, the date button on
      step 2 and the details form's enabled submit button on step 3 (both
      once a service is chosen), the back button from step 2 on, and a timer
      while a submission is pending. */
  predicate Offered(w: Wizard, e: Event) {
    match e
    case ChooseService(_) => w.step == 1
    case ChooseDateTime(_) => w.step == 2 && w.service.Some?
    case Confirm => w.step == 3 && w.service.Some? && !w.submitting
    case TimerFires => w.pending > 0
    case GoBack => w.step > 1
  }

  /** An event as the page takes it: only a control on screen can be
      clicked. A click on a card, the date button or back moves exactly one
      step; a submission keeps the step and starts a timer; a timer jumps to
      the confirmation step from wherever the page is, back clicks made in
      the meantime included. */
  function Click(w: Wizard, e: Event): (r: Wizard)
    ensures !Offered(w, e) ==> r == w
    ensures Offered(w, e) && (e.ChooseService? || e.ChooseDateTime?) ==> r.step == w.step + 1
    ensures Offered(w, e) && e.GoBack? ==> r.step == w.step - 1
    ensures Offered(w, e) && e.Confirm? ==> r.step == w.step && r.pending == w.pending + 1
    ensures Offered(w, e) && e.TimerFires? ==> r.step == LastStep && r.pending == w.pending - 1
    ensures InRange(w) && !e.GoBack? ==> r.step >= w.step
    ensures e.GoBack? ==> r.step <= w.step
    ensures InRange(w) ==> InRange(r)
  {
    if Offered(w, e) then Apply(w, e) else w
  }

  /** The state after a sequence of clicks, oldest first. */
  function Run(w: Wizard, es: seq<Event>): Wizard
    decreases |es|
  {
    if |es| == 0 then w else Run(Click(w, es[0]), es[1..])
  }

  /** Past the first step, or with a submission pending, a service has been
      chosen; and only the shown details form can be submitting. */
  predicate ServiceBeyondFirst(w: Wizard) {
    && InRange(w)
    && (w.step > FirstStep || w.pending > 0 ==> w.service.Some?)
    && (w.submitting ==> w.step == 3)
  }

  lemma {:induction false} ServiceKeptPastFirstStep(w: Wizard, es: seq<Event>)
    requires ServiceBeyondFirst(w)
    ensures ServiceBeyondFirst(Run(w, es))
    decreases |es|
  {
    if |es| > 0 {
      ServiceKeptPastFirstStep(Click(w, es[0]), es[1..]);
    }
  }

  lemma ServiceChosenBeforeConfirmation(es: seq<Event>)
    ensures Run(Initial, es).step > FirstStep ==> Run(Initial, es).service.Some?
  {
    ServiceKeptPastFirstStep(Initial, es);
  }

  /** Every sequence of clicks from the initial page keeps the step between
      the first and the last. */
  lemma {:induction false} StepStaysInRange(w: Wizard, es: seq<Event>)
    requires InRange(w)
    ensures InRange(Run(w, es))
    decreases |es|
  {
    if |es| > 0 {
      StepStaysInRange(Click(w, es[0]), es[1..]);
    }
  }

  lemma FromInitialStaysInRange(es: seq<Event>)
    ensures InRange(Run(Initial, es))
  {
    StepStaysInRange(Initial, es);
  }

  /** Going back from the first step does nothing, so any number of back
      clicks from the initial page leaves it unchanged. */
  lemma {:induction false} BackFromInitial(n: nat)
    ensures Run(Initial, seq(n, _ => GoBack)) == Initial
  {
    if n > 0 {
      assert seq(n, _ => GoBack)[1..] == seq(n - 1, _ => GoBack);
      BackFromInitial(n - 1);
    }
  }

  /** The straight path through the wizard ends on the confirmation step
      with the chosen service, the given date and the demo time, once the
      submission's timer has fired. */
  lemma HappyPath(offer: Offer, today: string)
    ensures Run(Initial, [ChooseService(offer), ChooseDateTime(today), Confirm, TimerFires])
            == Wizard(LastStep, Some(offer), today, DemoTime, false, 0)
  {
    var es := [ChooseService(offer), ChooseDateTime(today), Confirm, TimerFires];
    var w1 := Click(Initial, es[0]);
    var w2 := Click(w1, es[1]);
    var w3 := Click(w2, es[2]);
    assert w1 == Wizard(2, Some(offer), "", "", false, 0);
    assert w2 == Wizard(3, Some(offer), today, DemoTime, false, 0);
    assert w3 == Wizard(3, Some(offer), today, DemoTime, true, 1);
    assert es[1..] == [ChooseDateTime(today), Confirm, TimerFires];
    assert es[1..][1..] == [Confirm, TimerFires];
    assert es[1..][1..][1..] == [TimerFires];
    assert Run(w3, [TimerFires]) == Run(Click(w3, TimerFires), []);
    assert Run(w2, es[1..][1..]) == Run(w3, [TimerFires]);
    assert Run(w1, es[1..]) == Run(w2, es[1..][1..]);
  }

  /** Going back while a submission is pending does not stop it: the page
      shows the date step, then its timer jumps to the confirmation step. */
  lemma BackDuringSubmission(offer: Offer, date: string, time: string)
    ensures var w := Wizard(3, Some(offer), date, time, false, 0);
            && Run(w, [Confirm, GoBack]).step == 2
            && Run(w, [Confirm, GoBack, TimerFires]).step == LastStep
  {
    var w := Wizard(3, Some(offer), date, time, false, 0);
    var w1 := Click(w, Confirm);
    var w2 := Click(w1, GoBack);
    assert w2 == Wizard(2, Some(offer), date, time, false, 1);
    assert [Confirm, GoBack][1..] == [GoBack];
    assert [Confirm, GoBack, TimerFires][1..] == [GoBack, TimerFires];
    assert [GoBack, TimerFires][1..] == [TimerFires];
    assert Run(w2, [TimerFires]) == Run(Click(w2, TimerFires), []);
  }
}
