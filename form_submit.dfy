/**
 * The submitting side of the scraper (`GoogleFormSubmitter` in main.py):
 * each record is typed into the first three text inputs of a form page,
 * the form is sent, and the submission counts as accepted when the page
 * the browser lands on has "formResponse" in its address. Each record gets
 * at most three attempts; the run reports how many records were accepted
 * out of how many were given.
 *
 * The browser is not modelled. What one attempt observes of it (whether the
 * inputs appeared before the wait ran out, how many there were, whether the
 * send button was found, the address after the click) is a `FormPage`, and
 * the pages of a whole run are a function `pages(i, a)` from the record's
 * index and the attempt's number to the page that attempt sees.
 */
module FormSubmit {
  import opened Text
  import opened Scraper

  /** Attempts per record. */
  const MaxRetries: nat := 3

  /** Text inputs the form must offer: link, price, address. */
  const RequiredInputs: nat := 3

  /** What the address of the page after a successful submission contains. */
  const ConfirmationMarker: string := "formResponse"

  /**
   * What one submission attempt observes: whether the text inputs appeared
   * before the wait ran out, how many there were, whether the send button
   * was found, and the browser's address after the click.
   */
  datatype FormPage = FormPage(loaded: bool, textInputs: nat, buttonFound: bool, urlAfterSubmit: string)

  /** The outcome of one attempt: accepted or not, and what was typed into which input. */
  datatype Submission = Submission(ok: bool, typed: seq<(nat, string)>)

  /** The three values of a record in the order the form asks for them. */
  function FormFields(rec: PropertyRecord): (fields: seq<(nat, string)>)
  {
    [(0, rec.link), (1, rec.price), (2, rec.address)]
  }

  /**
   * One attempt at submitting `rec`. Without a browser nothing happens;
   * when the inputs never appear or are fewer than three nothing is typed;
   * otherwise the three values are typed, and the attempt is accepted only
   * when the button was there and the resulting address holds the marker.
   */
  function SubmitProperty(hasDriver: bool, rec: PropertyRecord, page: FormPage): (s: Submission)
    ensures s.typed == [] || s.typed == FormFields(rec)
    ensures s.ok ==> s.typed == FormFields(rec)
  {
    if !hasDriver || !page.loaded || page.textInputs < RequiredInputs then
      Submission(false, [])
    else if !page.buttonFound then
      Submission(false, FormFields(rec))
    else
      Submission(Contains(page.urlAfterSubmit, ConfirmationMarker), FormFields(rec))
  }

  /**
   * An attempt types the record's link, price and address into inputs 0, 1
   * and 2 exactly when a browser is there and at least three inputs
   * appeared, and is accepted exactly when, besides, the send button was
   * found and "formResponse" occurs somewhere in the address reached.
   */
  lemma SubmitPropertySpec(hasDriver: bool, rec: PropertyRecord, page: FormPage)
    ensures var s := SubmitProperty(hasDriver, rec, page);
      && (hasDriver && page.loaded && page.textInputs >= RequiredInputs ==>
            s.typed == [(0, rec.link), (1, rec.price), (2, rec.address)])
      && (!(hasDriver && page.loaded && page.textInputs >= RequiredInputs) ==> s.typed == [])
      && (s.ok <==> hasDriver && page.loaded && page.textInputs >= RequiredInputs && page.buttonFound
                    && exists i: nat :: OccursAt(page.urlAfterSubmit, ConfirmationMarker, i))
  {
    ContainsIffOccurs(page.urlAfterSubmit, ConfirmationMarker);
  }

  /** Whether attempt `a` for record `i` is accepted, with the browser up. */
  function AttemptOk(props: seq<PropertyRecord>, pages: (nat, nat) -> FormPage, i: nat, a: nat): (ok: bool)
    requires i < |props|
  {
    SubmitProperty(true, props[i], pages(i, a)).ok
  }

  /** How many attempts record `i` uses when attempt `a` is the next one: up to the first accepted, at most `MaxRetries`. */
  function TriesFrom(props: seq<PropertyRecord>, pages: (nat, nat) -> FormPage, i: nat, a: nat): (t: nat)
    requires i < |props| && a <= MaxRetries
    ensures t <= MaxRetries
    ensures a < MaxRetries ==> a < t
    decreases MaxRetries - a
  {
    if a == MaxRetries then MaxRetries
    else if AttemptOk(props, pages, i, a) then a + 1
    else TriesFrom(props, pages, i, a + 1)
  }

  /** How many attempts record `i` uses. */
  function Tries(props: seq<PropertyRecord>, pages: (nat, nat) -> FormPage, i: nat): (t: nat)
    requires i < |props|
    ensures 1 <= t <= MaxRetries
  {
    TriesFrom(props, pages, i, 0)
  }

  /** Record `i` is accepted: its last attempt went through. */
  predicate Delivered(props: seq<PropertyRecord>, pages: (nat, nat) -> FormPage, i: nat)
    requires i < |props|
  {
    Tries(props, pages, i) >= 1 && AttemptOk(props, pages, i, Tries(props, pages, i) - 1)
  }

  /** Counting from attempt `a` on: every earlier attempt failed, and the count stops at the first one accepted. */
  lemma {:induction false} TriesFromSpec(props: seq<PropertyRecord>, pages: (nat, nat) -> FormPage, i: nat, a: nat)
    requires i < |props| && a <= MaxRetries
    ensures forall b :: a <= b < TriesFrom(props, pages, i, a) - 1 ==> !AttemptOk(props, pages, i, b)
    ensures TriesFrom(props, pages, i, a) < MaxRetries ==> AttemptOk(props, pages, i, TriesFrom(props, pages, i, a) - 1)
    decreases MaxRetries - a
  {
    if a < MaxRetries && !AttemptOk(props, pages, i, a) {
      TriesFromSpec(props, pages, i, a + 1);
    }
  }

  /**
   * Record `i` uses between one and three attempts; every attempt before
   * the last one failed, and fewer than three are used only when the last
   * one was accepted.
   */
  lemma TriesSpec(props: seq<PropertyRecord>, pages: (nat, nat) -> FormPage, i: nat)
    requires i < |props|
    ensures 1 <= Tries(props, pages, i) <= MaxRetries
    ensures forall a :: 0 <= a < Tries(props, pages, i) - 1 ==> !AttemptOk(props, pages, i, a)
    ensures Tries(props, pages, i) < MaxRetries ==> Delivered(props, pages, i)
  {
    TriesFromSpec(props, pages, i, 0);
  }

  /** A record is accepted exactly when one of its three attempts is; otherwise all three were used. */
  lemma DeliveredIffSomeAttemptOk(props: seq<PropertyRecord>, pages: (nat, nat) -> FormPage, i: nat)
    requires i < |props|
    ensures Delivered(props, pages, i) <==> exists a :: 0 <= a < MaxRetries && AttemptOk(props, pages, i, a)
    ensures !Delivered(props, pages, i) ==> Tries(props, pages, i) == MaxRetries
  {
    TriesSpec(props, pages, i);
    if exists a :: 0 <= a < MaxRetries && AttemptOk(props, pages, i, a) {
      var a :| 0 <= a < MaxRetries && AttemptOk(props, pages, i, a);
      var t := Tries(props, pages, i);
      assert a >= t - 1;
      if t == MaxRetries {
        assert a == t - 1;
      }
    }
  }

  /**
   * Where the attempts for record `i` stop: at the first accepted attempt
   * `a`, which makes it delivered after `a + 1` tries, or after the last
   * attempt, which leaves it undelivered after all of them.
   */
  lemma AttemptsOutcome(props: seq<PropertyRecord>, pages: (nat, nat) -> FormPage, i: nat, a: nat)
    requires i < |props| && a <= MaxRetries
    requires TriesFrom(props, pages, i, a) == Tries(props, pages, i)
    requires forall b :: 0 <= b < a ==> !AttemptOk(props, pages, i, b)
    ensures a < MaxRetries && AttemptOk(props, pages, i, a) ==>
              Delivered(props, pages, i) && Tries(props, pages, i) == a + 1
    ensures a == MaxRetries ==> !Delivered(props, pages, i) && Tries(props, pages, i) == MaxRetries
  {
    DeliveredIffSomeAttemptOk(props, pages, i);
  }

  /** How many of the first `n` records are accepted. */
  function CountDelivered(props: seq<PropertyRecord>, pages: (nat, nat) -> FormPage, n: nat): (c: nat)
    requires n <= |props|
    ensures c <= n
  {
    if n == 0 then 0
    else CountDelivered(props, pages, n - 1) + (if Delivered(props, pages, n - 1) then 1 else 0)
  }

  /** One more record adds one to the count exactly when it is accepted. */
  lemma CountDeliveredNext(props: seq<PropertyRecord>, pages: (nat, nat) -> FormPage, n: nat, accepted: bool)
    requires n < |props| && accepted == Delivered(props, pages, n)
    ensures CountDelivered(props, pages, n + 1) == CountDelivered(props, pages, n) + (if accepted then 1 else 0)
  {
  }

  /** The indices below `n` of the accepted records. */
  ghost function DeliveredSet(props: seq<PropertyRecord>, pages: (nat, nat) -> FormPage, n: nat): set<nat>
    requires n <= |props|
  {
    set i: nat | i < n && Delivered(props, pages, i)
  }

  /** The indices below `n` of the records whose three attempts all failed. */
  ghost function ExhaustedSet(props: seq<PropertyRecord>, pages: (nat, nat) -> FormPage, n: nat): set<nat>
    requires n <= |props|
  {
    set i: nat | i < n && !Delivered(props, pages, i)
  }

  /** How many of the first `n` flags are set. */
  function CountTrue(flags: seq<bool>, n: nat): (c: nat)
    requires n <= |flags|
    ensures c <= n
  {
    if n == 0 then 0 else CountTrue(flags, n - 1) + (if flags[n - 1] then 1 else 0)
  }

  /** The indices below `n` whose flag equals `b`. */
  ghost function FlagSet(flags: seq<bool>, n: nat, b: bool): set<nat>
    requires n <= |flags|
  {
    set i: nat | i < n && flags[i] == b
  }

  /** Going from `n - 1` to `n` adds index `n - 1` to the set of its own flag value only. */
  lemma FlagSetStep(flags: seq<bool>, n: nat, b: bool)
    requires 0 < n <= |flags|
    ensures flags[n - 1] == b ==> FlagSet(flags, n, b) == FlagSet(flags, n - 1, b) + {n - 1}
    ensures flags[n - 1] != b ==> FlagSet(flags, n, b) == FlagSet(flags, n - 1, b)
    ensures n - 1 !in FlagSet(flags, n - 1, b)
  {
  }

  /** The set flags below `n` and the clear ones split the `n` indices between them. */
  lemma {:induction false} CountTrueSplit(flags: seq<bool>, n: nat)
    requires n <= |flags|
    ensures CountTrue(flags, n) == |FlagSet(flags, n, true)|
    ensures CountTrue(flags, n) + |FlagSet(flags, n, false)| == n
  {
    if n > 0 {
      CountTrueSplit(flags, n - 1);
      FlagSetStep(flags, n, true);
      FlagSetStep(flags, n, false);
    } else {
      assert FlagSet(flags, 0, true) == {};
      assert FlagSet(flags, 0, false) == {};
    }
  }

  /** Which records are accepted, in record order. */
  ghost function Outcomes(props: seq<PropertyRecord>, pages: (nat, nat) -> FormPage): (flags: seq<bool>)
  {
    seq(|props|, i requires 0 <= i < |props| => Delivered(props, pages, i))
  }

  /** Counting accepted records is counting the set flags of their outcomes. */
  lemma {:induction false} CountDeliveredIsCountTrue(props: seq<PropertyRecord>, pages: (nat, nat) -> FormPage, n: nat)
    requires n <= |props|
    ensures CountDelivered(props, pages, n) == CountTrue(Outcomes(props, pages), n)
  {
    if n > 0 {
      CountDeliveredIsCountTrue(props, pages, n - 1);
    }
  }

  /**
   * The count is the number of accepted records, and together with the
   * records that ran out of attempts it makes up all of them.
   */
  lemma DeliveredPlusExhaustedIsTotal(props: seq<PropertyRecord>, pages: (nat, nat) -> FormPage, n: nat)
    requires n <= |props|
    ensures CountDelivered(props, pages, n) == |DeliveredSet(props, pages, n)|
    ensures CountDelivered(props, pages, n) + |ExhaustedSet(props, pages, n)| == n
  {
    var flags := Outcomes(props, pages);
    CountDeliveredIsCountTrue(props, pages, n);
    CountTrueSplit(flags, n);
    assert DeliveredSet(props, pages, n) == FlagSet(flags, n, true);
    assert ExhaustedSet(props, pages, n) == FlagSet(flags, n, false);
  }

  /** When the form never loads, nothing is accepted and every record uses all three attempts. */
  lemma {:induction false} AllTimeoutsDeliverNothing(props: seq<PropertyRecord>, pages: (nat, nat) -> FormPage, n: nat)
    requires n <= |props|
    requires forall i: nat, a: nat :: !pages(i, a).loaded
    ensures CountDelivered(props, pages, n) == 0
    ensures forall i :: 0 <= i < n ==> Tries(props, pages, i) == MaxRetries
  {
    forall i | 0 <= i < n ensures !Delivered(props, pages, i) && Tries(props, pages, i) == MaxRetries {
      DeliveredIffSomeAttemptOk(props, pages, i);
    }
    if n > 0 {
      AllTimeoutsDeliverNothing(props, pages, n - 1);
    }
  }

  /** When every first attempt is accepted, every record is accepted after a single attempt. */
  lemma {:induction false} FirstAttemptsAcceptedDeliverAll(props: seq<PropertyRecord>, pages: (nat, nat) -> FormPage, n: nat)
    requires n <= |props|
    requires forall i :: 0 <= i < n ==> AttemptOk(props, pages, i, 0)
    ensures CountDelivered(props, pages, n) == n
    ensures forall i :: 0 <= i < n ==> Tries(props, pages, i) == 1
  {
    if n > 0 {
      FirstAttemptsAcceptedDeliverAll(props, pages, n - 1);
    }
  }

  class GoogleFormSubmitter {
    const formUrl: string
    const headless: bool
    /** Whether a browser session is open. */
    var driver: bool

    constructor (formUrl: string, headless: bool)
      ensures this.formUrl == formUrl && this.headless == headless && !driver
    {
      this.formUrl := formUrl;
      this.headless := headless;
      driver := false;
    }

    /**
     * The retry loop for record `i`: attempts one after the other, at most
     * three, stopping at the first accepted one. Reports whether the record
     * was accepted and how many attempts it took.
     */
    method SubmitWithRetries(props: seq<PropertyRecord>, pages: (nat, nat) -> FormPage, i: nat)
      returns (accepted: bool, ghost used: nat)
      requires i < |props| && driver
      ensures accepted == Delivered(props, pages, i)
      ensures used == Tries(props, pages, i)
    {
      var attempt := 0;
      while attempt < MaxRetries
        invariant 0 <= attempt <= MaxRetries
        invariant TriesFrom(props, pages, i, attempt) == Tries(props, pages, i)
        invariant forall a :: 0 <= a < attempt ==> !AttemptOk(props, pages, i, a)
      {
        var s := SubmitProperty(driver, props[i], pages(i, attempt));
        if s.ok {
          AttemptsOutcome(props, pages, i, attempt);
          return true, attempt + 1;
        }
        attempt := attempt + 1;
      }
      AttemptsOutcome(props, pages, i, attempt);
      return false, MaxRetries;
    }

    /**
     * The loop over the records with the browser up: each record goes
     * through the retry loop, and the accepted ones are counted.
     */
    method SubmitEach(properties: seq<PropertyRecord>, pages: (nat, nat) -> FormPage)
      returns (successful: nat, ghost tries: seq<nat>)
      requires driver
      ensures successful == CountDelivered(properties, pages, |properties|)
      ensures |tries| == |properties|
      ensures forall i :: 0 <= i < |properties| ==> tries[i] == Tries(properties, pages, i)
    {
      successful := 0;
      tries := [];
      var i := 0;
      while i < |properties|
        invariant 0 <= i <= |properties|
        invariant successful == CountDelivered(properties, pages, i)
        invariant |tries| == i
        invariant forall j {:trigger tries[j]} :: 0 <= j < i ==> tries[j] == Tries(properties, pages, j)
      {
        var accepted, used := SubmitWithRetries(properties, pages, i);
        CountDeliveredNext(properties, pages, i, accepted);
        if accepted {
          successful := successful + 1;
        }
        tries := tries + [used];
        i := i + 1;
      }
    }

    /**
     * Submits every record in order, each with up to three attempts and no
     * further attempt once one is accepted. `setupOk` is whether the browser
     * could be started; when it could not, nothing is submitted and the
     * count is zero. `tries` records how many attempts each record used.
     */
    method SubmitAllProperties(properties: seq<PropertyRecord>, setupOk: bool, pages: (nat, nat) -> FormPage)
      returns (successful: nat, total: nat, ghost tries: seq<nat>)
      modifies this
      ensures total == |properties|
      ensures driver == (setupOk || old(driver))
      ensures !setupOk ==> successful == 0 && tries == seq(|properties|, _ => 0)
      ensures setupOk ==> successful == CountDelivered(properties, pages, |properties|)
      ensures setupOk ==> |tries| == |properties|
      ensures setupOk ==> forall i :: 0 <= i < |properties| ==> tries[i] == Tries(properties, pages, i)
    {
      total := |properties|;
      if !setupOk {
        successful := 0;
        tries := seq(|properties|, _ => 0);
        return;
      }
      driver := true;
      successful, tries := SubmitEach(properties, pages);
    }
  }
}
