/**
 * The contact form of the portfolio page (`handleFormSubmit`,
 * `getButtonText` and the submit button).  A submit marks the form busy
 * and posts its fields; whether the post resolves or throws, the form
 * reports success, and two seconds later a timer clears the form and makes
 * it ready again.  The post and the timer are events of their own here:
 * `Settle` is the post finishing with either outcome, `TimerFires` the
 * timer.
 */
module ContactForm {
  /** Text of the idle button. */
  const IdleText: string := "Initiate Data Transfer"
  /** Text of the button while the post is in flight. */
  const SendingText: string := "Transmitting..."
  /** Text of the button after the post finished. */
  const SentText: string := "Data Transmitted"

  /**
   * `getButtonText`: the label for `submitStatus`.  Each label belongs to
   * exactly one kind of status, so the label tells which phase the form
   * is in.
   */
  function GetButtonText(submitStatus: string): (text: string)
    ensures text == SendingText <==> submitStatus == "submitting"
    ensures text == SentText <==> submitStatus == "success"
    ensures text == IdleText <==> submitStatus != "submitting" && submitStatus != "success"
  {
    match submitStatus
    case "submitting" => SendingText
    case "success" => SentText
    case _ => IdleText
  }

  class Form {
    /** `isSubmitting`. */
    var isSubmitting: bool
    /** `submitStatus`. */
    var submitStatus: string
    /** The values of the form's inputs, by input name. */
    var fields: map<string, string>
    /** Every body posted so far, oldest first. */
    var posted: seq<map<string, string>>
    /** Posts sent whose outcome has not arrived yet. */
    var inFlight: nat
    /** Reset timers armed and not yet fired. */
    var timers: nat

    /**
     * The form is always in one of three phases: ready, sending (one post
     * in flight) or sent (one reset timer armed).
     */
    ghost predicate Valid()
      reads this
    {
      (submitStatus == "normal" && !isSubmitting && inFlight == 0 && timers == 0) ||
      (submitStatus == "submitting" && isSubmitting && inFlight == 1 && timers == 0) ||
      (submitStatus == "success" && isSubmitting && inFlight == 0 && timers == 1)
    }

    /** The button is disabled exactly while `isSubmitting` is set (`disabled={isSubmitting}`). */
    predicate ButtonDisabled()
      reads this
    {
      isSubmitting
    }

    constructor()
      ensures Valid() && submitStatus == "normal" && !isSubmitting
      ensures fields == map[] && posted == [] && inFlight == 0 && timers == 0
    {
      isSubmitting := false;
      submitStatus := "normal";
      fields := map[];
      posted := [];
      inFlight := 0;
      timers := 0;
    }

    /** Typing into the input called `name`. */
    method Edit(name: string, value: string)
      requires Valid()
      modifies this
      ensures Valid()
      ensures fields == old(fields)[name := value]
      ensures isSubmitting == old(isSubmitting) && submitStatus == old(submitStatus)
      ensures posted == old(posted) && inFlight == old(inFlight) && timers == old(timers)
    {
      fields := fields[name := value];
    }

    /**
     * `handleFormSubmit`: busy and `'submitting'` first, then the fields are
     * posted.  A submit only comes from the button, which is disabled while
     * `isSubmitting` is set.
     */
    method Submit()
      requires Valid() && !ButtonDisabled()
      modifies this
      ensures Valid()
      ensures isSubmitting && submitStatus == "submitting"
      ensures posted == old(posted) + [old(fields)] && fields == old(fields)
      ensures inFlight == old(inFlight) + 1 && timers == old(timers)
    {
      isSubmitting := true;
      submitStatus := "submitting";
      posted := posted + [fields];
      inFlight := inFlight + 1;
    }

    /**
     * The post finishing: resolved (`ok`) or thrown, the status becomes
     * `'success'` and the reset timer is armed.  Nothing here depends on `ok`.
     */
    method Settle(ok: bool)
      requires Valid() && inFlight > 0
      modifies this
      ensures Valid()
      ensures submitStatus == "success" && isSubmitting
      ensures inFlight == old(inFlight) - 1 && timers == old(timers) + 1
      ensures fields == old(fields) && posted == old(posted)
    {
      if ok {
        submitStatus := "success";
        timers := timers + 1;
      } else {
        submitStatus := "success";
        timers := timers + 1;
      }
      inFlight := inFlight - 1;
    }

    /** The two-second timer: the form is cleared, the status is `'normal'` and the button is enabled again. */
    method TimerFires()
      requires Valid() && timers > 0
      modifies this
      ensures Valid()
      ensures submitStatus == "normal" && !isSubmitting && !ButtonDisabled()
      ensures fields == map[] && posted == old(posted)
      ensures timers == old(timers) - 1 && inFlight == old(inFlight)
    {
      fields := map[];
      submitStatus := "normal";
      isSubmitting := false;
      timers := timers - 1;
    }

    /** The label shown on the button. */
    function ButtonText(): string
      reads this
    {
      GetButtonText(submitStatus)
    }
  }

  /**
   * In every reachable state the button is disabled exactly when the form
   * is not ready, and its label names the phase: sending while a post is in
   * flight, sent while the reset timer is armed, idle otherwise.
   */
  lemma PhaseShown(f: Form)
    requires f.Valid()
    ensures f.ButtonDisabled() <==> f.submitStatus != "normal"
    ensures f.ButtonText() == (if f.inFlight > 0 then SendingText else if f.timers > 0 then SentText else IdleText)
    ensures f.ButtonDisabled() <==> f.ButtonText() != IdleText
  {
  }

  /**
   * One full round, with either outcome: submit, the post settles, the
   * timer fires; the form is ready and empty again and exactly the filled-in
   * fields were posted.
   */
  method SubmitRound(f: Form, ok: bool)
    requires f.Valid() && !f.ButtonDisabled()
    modifies f
    ensures f.Valid() && f.submitStatus == "normal" && !f.isSubmitting
    ensures f.posted == old(f.posted) + [old(f.fields)] && f.fields == map[]
  {
    f.Submit();
    assert f.ButtonText() == SendingText;
    f.Settle(ok);
    assert f.ButtonText() == SentText;
    f.TimerFires();
  }
}
