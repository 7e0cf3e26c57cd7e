/** The ordered business rules. Each rule has one error; the rules are
    checked in a fixed order and only the first violation is reported. */
module Validator {
  import opened Wrappers
  import opened Text
  import opened Calendar
  import opened Normalizer

  datatype Error =
    | AccountTooShort
    | DateMissing
    | DateInPast
    | ScriptTooShort
    | NoCustomFramework

  /** The user-facing message of each error. */
  function Message(e: Error): string {
    match e
    case AccountTooShort => "账号名称至少需要2个字符"
    case DateMissing => "请选择发布日期"
    case DateInPast => "发布日期不能早于今天"
    case ScriptTooShort => "脚本名称至少需要3个字符"
    case NoCustomFramework => "选择自定义模式时，请输入至少一个自定义框架选项"
  }

  /** Each error has its own message, so the message names the error. */
  lemma MessageInjective(e1: Error, e2: Error)
    ensures Message(e1) == Message(e2) <==> e1 == e2
  {
    if Message(e1) == Message(e2) {
      assert Message(e1)[0] == Message(e2)[0];
    }
  }

  const MinAccountLength: nat := 2
  const MinScriptLength: nat := 3

  /** `selectedDate < today` with `today` set to the midnight starting the
      current day. An invalid date compares as NaN, and a comparison with
      NaN is false, so it never counts as past. */
  predicate IsPast(d: DateValue, now: Instant) {
    d.At? && InstantBefore(d.instant, StartOfDay(now))
  }

  /** A date counts as past exactly when its calendar day is before today's. */
  lemma IsPastIsEarlierDay(i: Instant, now: Instant)
    ensures IsPast(At(i), now) <==> DateBefore(i.date, now.date)
    ensures i.date == now.date ==> !IsPast(At(i), now)
  {
    BeforeStartOfDay(i, now);
  }

  /** A rule: whether it holds and what it reports when it does not. */
  datatype Rule = Rule(holds: bool, error: Error)

  /** The position of the first rule that fails, or the number of rules
      when all hold. */
  function FirstFailingIndex(rules: seq<Rule>): (i: nat)
    ensures i <= |rules|
    ensures forall j :: 0 <= j < i ==> rules[j].holds
    ensures i < |rules| ==> !rules[i].holds
  {
    if rules == [] || !rules[0].holds then 0 else 1 + FirstFailingIndex(rules[1..])
  }

  /** Checks the rules left to right and reports the error of the first
      that fails. */
  function FirstFailure(rules: seq<Rule>): (r: Outcome<Error>)
    ensures r.Pass? <==> forall k :: 0 <= k < |rules| ==> rules[k].holds
    ensures r.Fail? ==> exists k :: 0 <= k < |rules| && !rules[k].holds && rules[k].error == r.error
                                  && forall j :: 0 <= j < k ==> rules[j].holds
  {
    var i := FirstFailingIndex(rules);
    if i == |rules| then Pass else Fail(rules[i].error)
  }

  /** Rules 1 to 4 in the order the validator checks them. */
  function GenericRules(account: string, date: DateValue, script: string, now: Instant): seq<Rule> {
    [ Rule(|Trim(account)| >= MinAccountLength, AccountTooShort),
      Rule(date != Absent, DateMissing),
      Rule(!IsPast(date, now), DateInPast),
      Rule(|Trim(script)| >= MinScriptLength, ScriptTooShort) ]
  }

  /** validateInputs: account of at least 2 characters after trimming, a
      date, not before today, a script of at least 3 characters after
      trimming; the first violation is the verdict. */
  function ValidateInputs(account: string, date: DateValue, script: string, now: Instant): (r: Outcome<Error>)
    ensures r == Fail(AccountTooShort) <==> |Trim(account)| < MinAccountLength
    ensures r == Fail(DateMissing) <==> |Trim(account)| >= MinAccountLength && date == Absent
    ensures r == Fail(DateInPast)
        <==> |Trim(account)| >= MinAccountLength && date != Absent && IsPast(date, now)
    ensures r == Fail(ScriptTooShort)
        <==> |Trim(account)| >= MinAccountLength && date != Absent && !IsPast(date, now)
             && |Trim(script)| < MinScriptLength
    ensures r.Pass?
        <==> |Trim(account)| >= MinAccountLength && date != Absent && !IsPast(date, now)
             && |Trim(script)| >= MinScriptLength
    ensures r != Fail(NoCustomFramework)
  {
    if |Trim(account)| < MinAccountLength then Fail(AccountTooShort)
    else if date == Absent then Fail(DateMissing)
    else if IsPast(date, now) then Fail(DateInPast)
    else if |Trim(script)| < MinScriptLength then Fail(ScriptTooShort)
    else Pass
  }

  /** The validator is the first-failure reading of the four rules. */
  lemma ValidateInputsIsFirstFailure(account: string, date: DateValue, script: string, now: Instant)
    ensures ValidateInputs(account, date, script, now) == FirstFailure(GenericRules(account, date, script, now))
  {
    var rules := GenericRules(account, date, script, now);
    var k := if !rules[0].holds then 0 else if !rules[1].holds then 1
             else if !rules[2].holds then 2 else if !rules[3].holds then 3 else 4;
    if k < 4 {
      FirstFailureAt(rules, k);
    }
  }

  /** The verdict is decided by the first failing rule alone. */
  lemma FirstFailureAt(rules: seq<Rule>, k: nat)
    requires k < |rules| && !rules[k].holds
    requires forall j :: 0 <= j < k ==> rules[j].holds
    ensures FirstFailure(rules) == Fail(rules[k].error)
  {
    var i := FirstFailingIndex(rules);
    assert i <= k;
  }

  /** A short account is reported whatever the other fields hold. */
  lemma ShortAccountWins(account: string, date: DateValue, script: string, now: Instant)
    requires |Trim(account)| < MinAccountLength
    ensures ValidateInputs(account, date, script, now) == Fail(AccountTooShort)
  {
  }

  /** The extra custom-mode rule: custom mode needs at least one framework. */
  function CustomRule(n: Normalized): Rule {
    Rule(!(n.customMode && |n.frameworks| == 0), NoCustomFramework)
  }

  /** All five rules, the custom-mode one last. */
  function AllRules(n: Normalized, now: Instant): seq<Rule> {
    GenericRules(n.account, n.date, n.script, now) + [CustomRule(n)]
  }
}
