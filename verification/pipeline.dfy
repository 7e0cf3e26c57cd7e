/** The `execute` entry point: normalise, validate, apply the custom-mode
    rule, compose, and render the single result text. */
module Pipeline {
  import opened Wrappers
  import opened Text
  import opened Calendar
  import opened Normalizer
  import opened Validator
  import opened Composer

  /** Either the composed name or the one error that stopped the request. */
  datatype Verdict = Named(name: string) | Rejected(error: Error)

  const ErrorPrefix: string := "错误: "

  /** Validation, then the custom-mode rule, then composition. A name is
      composed only when every rule passed. */
  function Run(n: Normalized, now: Instant): (v: Verdict)
    ensures v.Named? <==> FirstFailure(AllRules(n, now)).Pass?
    ensures v.Named? ==> v.name == ComposeName(n)
    ensures v.Rejected? ==> FirstFailure(AllRules(n, now)) == Fail(v.error)
    ensures v == Rejected(NoCustomFramework)
        ==> ValidateInputs(n.account, n.date, n.script, now).Pass? && n.customMode && n.frameworks == []
  {
    ValidateInputsIsFirstFailure(n.account, n.date, n.script, now);
    RunRules(n, now);
    match ValidateInputs(n.account, n.date, n.script, now)
    case Fail(e) => Rejected(e)
    case Pass =>
      if n.customMode && |n.frameworks| == 0 then Rejected(NoCustomFramework)
      else Named(ComposeName(n))
  }

  /** Appending the custom-mode rule after the generic ones: it is consulted
      only when all four generic rules hold. */
  lemma RunRules(n: Normalized, now: Instant)
    ensures var g := GenericRules(n.account, n.date, n.script, now);
      && (FirstFailure(g).Fail? ==> FirstFailure(AllRules(n, now)) == FirstFailure(g))
      && (FirstFailure(g).Pass? ==>
            FirstFailure(AllRules(n, now)) == (if CustomRule(n).holds then Pass else Fail(NoCustomFramework)))
  {
    var g := GenericRules(n.account, n.date, n.script, now);
    var all := AllRules(n, now);
    var i := FirstFailingIndex(g);
    if i < |g| {
      FirstFailureAt(all, i);
    } else if !CustomRule(n).holds {
      FirstFailureAt(all, |g|);
    }
  }

  /** A request that passes every rule gets its name. */
  lemma RunAccepts(n: Normalized, now: Instant)
    requires ValidateInputs(n.account, n.date, n.script, now).Pass?
    requires !(n.customMode && |n.frameworks| == 0)
    ensures Run(n, now) == Named(ComposeName(n))
  {
  }

  /** A request that breaks a generic rule gets that rule's error. */
  lemma RunRejects(n: Normalized, now: Instant, e: Error)
    requires ValidateInputs(n.account, n.date, n.script, now) == Fail(e)
    ensures Run(n, now) == Rejected(e)
  {
  }

  /** The corrected pipeline: as written, except that an empty date array
      is read as no date. */
  function Execute(raw: RawForm, now: Instant): Verdict {
    Run(Normalize(raw), now)
  }

  /** `execute` exactly as written. */
  function ExecuteAsWritten(raw: RawForm, now: Instant): Verdict {
    Run(NormalizeAsWritten(raw), now)
  }

  /** The result text: the name, or the error prefix and the message. */
  function Render(v: Verdict): string {
    match v
    case Named(name) => name
    case Rejected(e) => ErrorPrefix + Message(e)
  }

  /** The corrected and the as-written pipeline give the same verdict on
      every form whose date is not an empty array. */
  lemma ExecuteAgreesOffEmptyArray(raw: RawForm, now: Instant)
    ensures raw.date != Many([]) ==> Execute(raw, now) == ExecuteAsWritten(raw, now)
  {
    NormalizeAgreesOffEmptyArray(raw);
  }

  /** Different errors render to different texts, and every error text
      carries the prefix. */
  lemma RenderDistinguishesErrors(e1: Error, e2: Error)
    ensures ErrorPrefix <= Render(Rejected(e1))
    ensures Render(Rejected(e1)) == Render(Rejected(e2)) <==> e1 == e2
  {
    var r1, r2 := Render(Rejected(e1)), Render(Rejected(e2));
    if r1 == r2 {
      assert r1[|ErrorPrefix|..] == Message(e1);
      assert r2[|ErrorPrefix|..] == Message(e2);
      MessageInjective(e1, e2);
    }
  }

  /** Once the generic rules pass, the custom-mode error is reported
      exactly when custom mode parsed no framework; this holds of the
      program as written and of the corrected pipeline. */
  lemma CustomErrorOnlyAfterGenericRules(raw: RawForm, now: Instant)
    ensures var n := NormalizeAsWritten(raw);
      ValidateInputs(n.account, n.date, n.script, now).Pass? ==>
        (ExecuteAsWritten(raw, now) == Rejected(NoCustomFramework)
         <==> raw.mode == Some("custom") && ParseCustomFrameworks(raw.customText) == [])
    ensures var n := Normalize(raw);
      ValidateInputs(n.account, n.date, n.script, now).Pass? ==>
        (Execute(raw, now) == Rejected(NoCustomFramework)
         <==> raw.mode == Some("custom") && ParseCustomFrameworks(raw.customText) == [])
  {
  }

  /** A short account is the verdict whatever else the form holds, an
      empty date array included. */
  lemma ShortAccountRejected(raw: RawForm, now: Instant)
    requires |Trim(raw.account)| < MinAccountLength
    ensures ExecuteAsWritten(raw, now) == Rejected(AccountTooShort)
    ensures Execute(raw, now) == Rejected(AccountTooShort)
  {
    var w := NormalizeAsWritten(raw);
    assert ValidateInputs(w.account, w.date, w.script, now) == Fail(AccountTooShort);
    var n := Normalize(raw);
    assert ValidateInputs(n.account, n.date, n.script, now) == Fail(AccountTooShort);
  }

  /** A publish date on today's calendar day is accepted at any time of day. */
  lemma TodayIsAccepted(raw: RawForm, now: Instant, ms: nat)
    requires |Trim(raw.account)| >= MinAccountLength && |Trim(raw.script)| >= MinScriptLength
    requires CollapseDateAsWritten(raw.date) == At(Instant(now.date, ms))
    requires !(raw.mode == Some("custom") && ParseCustomFrameworks(raw.customText) == [])
    ensures ExecuteAsWritten(raw, now) == Named(ComposeName(NormalizeAsWritten(raw)))
    ensures Execute(raw, now) == Named(ComposeName(Normalize(raw)))
  {
    IsPastIsEarlierDay(Instant(now.date, ms), now);
    ExecuteAgreesOffEmptyArray(raw, now);
    NormalizeAgreesOffEmptyArray(raw);
  }

  /** An empty date array: the pipeline as written lets it through and
      writes `NaNNaNNaN` into the name, where the intended reading reports
      the missing date. */
  lemma EmptyDateArrayAsWritten(raw: RawForm, now: Instant)
    requires raw.date == Many([])
    requires |Trim(raw.account)| >= MinAccountLength && |Trim(raw.script)| >= MinScriptLength
    requires !(raw.mode == Some("custom") && ParseCustomFrameworks(raw.customText) == [])
    ensures ExecuteAsWritten(raw, now).Named?
    ensures InvalidStamp in Segments(NormalizeAsWritten(raw))
    ensures Execute(raw, now) == Rejected(DateMissing)
  {
    var n := NormalizeAsWritten(raw);
    SegmentsLayout(n);
  }
}
