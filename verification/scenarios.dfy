/** Worked example requests, each proved for concrete form values. */
module Scenarios {
  import opened Wrappers
  import opened Text
  import opened Calendar
  import opened Normalizer
  import opened Validator
  import opened Composer
  import opened Pipeline

  const ExampleInstant: Instant := Instant(Date(2025, 6, 1), 36_000_000)

  /** The form of the happy-path example, with the editor left as a parameter. */
  function ExampleForm(editor: Option<string>): RawForm {
    RawForm("男主播A", Some("preset"), Some([Tagged(Some("信任")), Tagged(Some("价格"))]), "",
            Single(ExampleInstant), "Polo衫面料深度解析", editor)
  }

  function ExampleNormalized(editor: Option<string>): Normalized {
    Normalized("男主播A", false, ["信任", "价格"], At(ExampleInstant), "Polo衫面料深度解析", editor)
  }

  lemma ExampleNormalizes(editor: Option<string>)
    ensures Normalize(ExampleForm(editor)) == ExampleNormalized(editor)
  {
    assert PresetValues(Some([Tagged(Some("信任")), Tagged(Some("价格"))])) == ["信任", "价格"];
  }

  lemma ExampleStampText()
    ensures Stamp(Date(2025, 6, 1)) == "20250601"
  {
    assert DecimalText(2025) == "2025";
    assert Pad2(6) == "06";
  }

  lemma ExampleStamp()
    ensures DateSegment(At(ExampleInstant)) == Some("20250601")
  {
    ExampleStampText();
  }

  lemma ExampleFrameworkText()
    ensures Join(["信任", "价格"], ',') == "信任,价格"
  {
  }

  lemma ExampleTrims()
    ensures Trim("男主播A") == "男主播A"
    ensures Trim("Polo衫面料深度解析") == "Polo衫面料深度解析"
  {
    TrimOfTrimmed("男主播A");
    TrimOfTrimmed("Polo衫面料深度解析");
  }

  lemma ExampleValid(editor: Option<string>, now: Instant)
    requires !DateBefore(Date(2025, 6, 1), now.date)
    ensures var n := ExampleNormalized(editor);
      ValidateInputs(n.account, n.date, n.script, now) == Pass
  {
    ExampleTrims();
    IsPastIsEarlierDay(ExampleInstant, now);
  }

  lemma ExampleSegments(editor: Option<string>)
    ensures var n := ExampleNormalized(editor);
      Segments(n) == Assemble("男主播A", "信任,价格", Some("20250601"), "Polo衫面料深度解析", EditorText(n))
  {
    ExampleStamp();
    ExampleTrims();
    ExampleFrameworkText();
  }

  lemma EditorTrim()
    ensures Trim("张三") == "张三"
  {
    TrimOfTrimmed("张三");
  }

  lemma FullSegments()
    ensures Assemble("男主播A", "信任,价格", Some("20250601"), "Polo衫面料深度解析", "张三")
         == ["男主播A", "信任,价格", "20250601", "Polo衫面料深度解析", "张三"]
  {
  }

  lemma JoinFour(a: string, b: string, c: string, d: string)
    ensures Join([a, b, c, d], '-') == a + "-" + b + "-" + c + "-" + d
  {
    JoinCons(c, [d]);
    JoinCons(b, [c, d]);
    JoinCons(a, [b, c, d]);
  }

  lemma JoinFive(a: string, b: string, c: string, d: string, e: string)
    ensures Join([a, b, c, d, e], '-') == a + "-" + b + "-" + c + "-" + d + "-" + e
  {
    JoinCons(a, [b, c, d, e]);
    JoinFour(b, c, d, e);
  }

  lemma JoinCons(x: string, xs: seq<string>)
    requires |xs| >= 1
    ensures Join([x] + xs, '-') == x + "-" + Join(xs, '-')
  {
    assert ([x] + xs)[1..] == xs;
  }

  lemma FullJoin()
    ensures Join(["男主播A", "信任,价格", "20250601", "Polo衫面料深度解析", "张三"], '-')
         == "男主播A-信任,价格-20250601-Polo衫面料深度解析-张三"
  {
    JoinFive("男主播A", "信任,价格", "20250601", "Polo衫面料深度解析", "张三");
    FullText();
  }

  lemma FullText()
    ensures "男主播A" + "-" + "信任,价格" + "-" + "20250601" + "-" + "Polo衫面料深度解析" + "-" + "张三"
         == "男主播A-信任,价格-20250601-Polo衫面料深度解析-张三"
  {
  }

  lemma ShortSegments(date: string)
    ensures Assemble("男主播A", "信任,价格", Some(date), "Polo衫面料深度解析", "")
         == ["男主播A", "信任,价格", date, "Polo衫面料深度解析"]
  {
  }

  lemma ShortJoin()
    ensures Join(["男主播A", "信任,价格", "20250601", "Polo衫面料深度解析"], '-')
         == "男主播A-信任,价格-20250601-Polo衫面料深度解析"
    ensures Join(["男主播A", "信任,价格", "NaNNaNNaN", "Polo衫面料深度解析"], '-')
         == "男主播A-信任,价格-NaNNaNNaN-Polo衫面料深度解析"
  {
    JoinFour("男主播A", "信任,价格", "20250601", "Polo衫面料深度解析");
    JoinFour("男主播A", "信任,价格", "NaNNaNNaN", "Polo衫面料深度解析");
    ShortText();
    ShortInvalidText();
  }

  lemma ShortText()
    ensures "男主播A" + "-" + "信任,价格" + "-" + "20250601" + "-" + "Polo衫面料深度解析"
         == "男主播A-信任,价格-20250601-Polo衫面料深度解析"
  {
  }

  lemma ShortInvalidText()
    ensures "男主播A" + "-" + "信任,价格" + "-" + "NaNNaNNaN" + "-" + "Polo衫面料深度解析"
         == "男主播A-信任,价格-NaNNaNNaN-Polo衫面料深度解析"
  {
  }

  /** Scenario A: every field filled, preset frameworks. */
  lemma HappyPath(now: Instant)
    requires !DateBefore(Date(2025, 6, 1), now.date)
    ensures Render(ExecuteAsWritten(ExampleForm(Some("张三")), now))
         == "男主播A-信任,价格-20250601-Polo衫面料深度解析-张三"
    ensures Render(Execute(ExampleForm(Some("张三")), now))
         == "男主播A-信任,价格-20250601-Polo衫面料深度解析-张三"
  {
    ExecuteAgreesOffEmptyArray(ExampleForm(Some("张三")), now);
    var n := ExampleNormalized(Some("张三"));
    ExampleNormalizes(Some("张三"));
    ExampleValid(Some("张三"), now);
    RunAccepts(n, now);
    ExampleSegments(Some("张三"));
    EditorTrim();
    FullSegments();
    FullJoin();
  }

  /** Scenario B: no editor, so no editor segment. */
  lemma NoEditor(now: Instant)
    requires !DateBefore(Date(2025, 6, 1), now.date)
    ensures Render(ExecuteAsWritten(ExampleForm(None), now))
         == "男主播A-信任,价格-20250601-Polo衫面料深度解析"
    ensures Render(Execute(ExampleForm(None), now))
         == "男主播A-信任,价格-20250601-Polo衫面料深度解析"
  {
    ExecuteAgreesOffEmptyArray(ExampleForm(None), now);
    var n := ExampleNormalized(None);
    ExampleNormalizes(None);
    ExampleValid(None, now);
    RunAccepts(n, now);
    ExampleSegments(None);
    ShortSegments("20250601");
    ShortJoin();
  }

  /** Scenario C: custom mode with empty free text. */
  lemma EmptyCustomList(now: Instant)
    requires !DateBefore(Date(2025, 6, 1), now.date)
    ensures ExecuteAsWritten(ExampleForm(None).(mode := Some("custom")), now) == Rejected(NoCustomFramework)
    ensures Execute(ExampleForm(None).(mode := Some("custom")), now) == Rejected(NoCustomFramework)
  {
    ExecuteAgreesOffEmptyArray(ExampleForm(None).(mode := Some("custom")), now);
    var raw := ExampleForm(None).(mode := Some("custom"));
    var n := ExampleNormalized(None).(customMode := true, frameworks := []);
    assert ParseCustomFrameworks("") == [];
    assert Normalize(raw) == n;
    ExampleValid(None, now);
  }

  lemma ExamplePast(now: Instant)
    requires now.date == Date(2025, 6, 2)
    ensures var n := ExampleNormalized(None);
      ValidateInputs(n.account, n.date, n.script, now) == Fail(DateInPast)
  {
    ExampleTrims();
    IsPastIsEarlierDay(ExampleInstant, now);
  }

  /** Scenario D: a publish date on the day before today. */
  lemma PastDate(now: Instant)
    requires now.date == Date(2025, 6, 2)
    ensures ExecuteAsWritten(ExampleForm(None), now) == Rejected(DateInPast)
    ensures Execute(ExampleForm(None), now) == Rejected(DateInPast)
  {
    ExecuteAgreesOffEmptyArray(ExampleForm(None), now);
    var n := ExampleNormalized(None);
    ExampleNormalizes(None);
    ExamplePast(now);
    RunRejects(n, now, DateInPast);
  }

  lemma ShortScriptTrim()
    ensures Trim("ab") == "ab"
  {
    TrimOfTrimmed("ab");
  }

  /** Scenario E: a two-character script name. */
  lemma ShortScript(now: Instant)
    requires !DateBefore(Date(2025, 6, 1), now.date)
    ensures ExecuteAsWritten(ExampleForm(None).(script := "ab"), now) == Rejected(ScriptTooShort)
    ensures Execute(ExampleForm(None).(script := "ab"), now) == Rejected(ScriptTooShort)
  {
    ExecuteAgreesOffEmptyArray(ExampleForm(None).(script := "ab"), now);
    var n := ExampleNormalized(None).(script := "ab");
    ExampleNormalizes(None);
    assert Normalize(ExampleForm(None).(script := "ab")) == n;
    ExampleTrims();
    ShortScriptTrim();
    IsPastIsEarlierDay(ExampleInstant, now);
    RunRejects(n, now, ScriptTooShort);
  }

  /** The custom-text example: pieces are trimmed, order is kept. */
  lemma CustomTextExample()
    ensures ParseCustomFrameworks("性价比, 实用性 ,美观度") == ["性价比", "实用性", "美观度"]
  {
    CustomTextPieces();
    CustomTextEnd("性价比");
    CustomTextMiddle();
    CustomTextEnd("美观度");
    ThreePieces("性价比, 实用性 ,美观度", "性价比", " 实用性 ", "美观度", "性价比", "实用性", "美观度");
  }

  /** The first and the last piece of the custom-text example are already
      trimmed, so each parses to itself. */
  lemma CustomTextEnd(a: string)
    requires a == "性价比" || a == "美观度"
    ensures ParseCustomFrameworks(a) == [a]
  {
    ParseTrimmedPiece(a);
  }

  lemma ThreePieces(text: string, a: string, b: string, c: string, x: string, y: string, z: string)
    requires text == a + "," + b + "," + c
    requires ParseCustomFrameworks(a) == [x]
    requires ParseCustomFrameworks(b) == [y]
    requires ParseCustomFrameworks(c) == [z]
    ensures ParseCustomFrameworks(text) == [x, y, z]
  {
    ParseThree(a, b, c);
    SingletonsJoin(x, y, z);
  }

  lemma SingletonsJoin(x: string, y: string, z: string)
    ensures [x] + [y] + [z] == [x, y, z]
  {
  }

  lemma ParseThree(a: string, b: string, c: string)
    ensures ParseCustomFrameworks(a + "," + b + "," + c)
         == ParseCustomFrameworks(a) + ParseCustomFrameworks(b) + ParseCustomFrameworks(c)
  {
    ConcatRegroup(a, b, c);
    ParseNested(a, b, c);
    AppendRegroup(ParseCustomFrameworks(a), ParseCustomFrameworks(b), ParseCustomFrameworks(c));
  }

  lemma ConcatRegroup(a: string, b: string, c: string)
    ensures a + "," + b + "," + c == a + "," + (b + "," + c)
  {
  }

  lemma AppendRegroup(x: seq<string>, y: seq<string>, z: seq<string>)
    ensures x + (y + z) == x + y + z
  {
  }

  lemma ParseNested(a: string, b: string, c: string)
    ensures ParseCustomFrameworks(a + "," + (b + "," + c))
         == ParseCustomFrameworks(a) + (ParseCustomFrameworks(b) + ParseCustomFrameworks(c))
  {
    ParseAroundComma(a, b + "," + c);
    ParseAroundComma(b, c);
  }

  lemma CustomTextPieces()
    ensures "性价比, 实用性 ,美观度" == "性价比" + "," + " 实用性 " + "," + "美观度"
  {
  }

  lemma CustomTextMiddle()
    ensures ParseCustomFrameworks(" 实用性 ") == ["实用性"]
  {
    CustomTextPadding();
    PaddedPiece(" ", "实用性", " ");
  }

  lemma CustomTextPadding()
    ensures " 实用性 " == " " + "实用性" + " "
  {
  }

  lemma PaddedPiece(p: string, t: string, q: string)
    requires AllSpace(p) && AllSpace(q) && t != [] && IsTrimmed(t) && ',' !in p + t + q
    ensures ParseCustomFrameworks(p + t + q) == [t]
  {
    ParseOnePiece(p + t + q);
    TrimOfPadded(p, t, q);
  }

  /** Duplicates survive parsing. */
  lemma CustomDuplicatesKept()
    ensures ParseCustomFrameworks("价格,价格") == ["价格", "价格"]
  {
    DuplicatePieces();
    ParseAroundComma("价格", "价格");
    ParseTrimmedPiece("价格");
  }

  lemma DuplicatePieces()
    ensures "价格,价格" == "价格" + "," + "价格"
  {
  }

  /** An empty date array, as the pipeline is written, yields a name. */
  lemma EmptyDateArrayExample(now: Instant)
    ensures Render(ExecuteAsWritten(ExampleForm(None).(date := Many([])), now))
         == "男主播A-信任,价格-NaNNaNNaN-Polo衫面料深度解析"
    ensures Execute(ExampleForm(None).(date := Many([])), now) == Rejected(DateMissing)
  {
    var raw := ExampleForm(None).(date := Many([]));
    var n := ExampleNormalized(None).(date := Unreadable);
    ExampleNormalizes(None);
    assert NormalizeAsWritten(raw) == n;
    assert Normalize(raw) == n.(date := Absent);
    ExampleTrims();
    RunAccepts(n, now);
    RunRejects(n.(date := Absent), now, DateMissing);
    ExampleFrameworkText();
    ShortSegments("NaNNaNNaN");
    ShortJoin();
  }
}
