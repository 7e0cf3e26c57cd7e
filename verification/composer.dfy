/** generateVideoName: the present segments, in the fixed order account,
    frameworks, date stamp, script, editor, joined with `-`. */
module Composer {
  import opened Wrappers
  import opened Text
  import opened Calendar
  import opened Normalizer
  import opened Validator

  /** What `${year}${month}${day}` gives for an invalid date: each part is `NaN`. */
  const InvalidStamp: string := "NaNNaNNaN"

  const SegmentSeparator: char := '-'

  /** The date segment: the stamp of the instant's calendar day, none when
      no date was given. */
  function DateSegment(d: DateValue): (r: Option<string>)
    ensures r.None? <==> d == Absent
    ensures r.Some? ==> r.value != ""
  {
    match d
    case Absent => None
    case At(i) => Some(Stamp(i.date))
    case Unreadable => Some(InvalidStamp)
  }

  /** The frameworks joined with `,`. */
  function FrameworkText(n: Normalized): string {
    Join(n.frameworks, FrameworkSeparator)
  }

  /** The trimmed editor, empty when none was given. */
  function EditorText(n: Normalized): string {
    match n.editor
    case Some(e) => Trim(e)
    case None => ""
  }

  /** A segment kept only when it is non-empty, as `if (part) parts.push(part)`. */
  function IfPresent(part: string): seq<string> {
    if part != "" then [part] else []
  }

  /** The segments in their fixed order, from already formatted parts. */
  function Assemble(account: string, frameworks: string, date: Option<string>, script: string, editor: string): seq<string> {
    [account]
      + IfPresent(frameworks)
      + (match date case Some(s) => [s] case None => [])
      + [script]
      + IfPresent(editor)
  }

  lemma AssembleLayout(account: string, frameworks: string, date: Option<string>, script: string, editor: string)
    ensures var f := if frameworks != "" then 1 else 0;
            var d := if date.Some? then 1 else 0;
            var e := if editor != "" then 1 else 0;
            var r := Assemble(account, frameworks, date, script, editor);
            && |r| == 2 + f + d + e
            && r[0] == account
            && (f == 1 ==> r[1] == frameworks)
            && (d == 1 ==> r[1 + f] == date.value)
            && r[1 + f + d] == script
            && (e == 1 ==> r[2 + f + d] == editor)
  {
  }

  /** The segments of the name, in order. */
  function Segments(n: Normalized): seq<string> {
    Assemble(Trim(n.account), FrameworkText(n), DateSegment(n.date), Trim(n.script), EditorText(n))
  }

  /** Where each part lands: the account first, then the framework text if
      non-empty, then the stamp if a date is given, then the script, then
      the editor if non-empty after trimming, and nothing else. */
  lemma SegmentsLayout(n: Normalized)
    ensures var f := if Join(n.frameworks, FrameworkSeparator) != "" then 1 else 0;
            var d := if n.date != Absent then 1 else 0;
            var e := if EditorText(n) != "" then 1 else 0;
            var r := Segments(n);
            && |r| == 2 + f + d + e
            && r[0] == Trim(n.account)
            && (f == 1 ==> r[1] == Join(n.frameworks, FrameworkSeparator))
            && (d == 1 ==> r[1 + f] == DateSegment(n.date).value)
            && r[1 + f + d] == Trim(n.script)
            && (e == 1 ==> r[2 + f + d] == EditorText(n))
  {
    AssembleLayout(Trim(n.account), FrameworkText(n), DateSegment(n.date), Trim(n.script), EditorText(n));
  }

  /** generateVideoName. */
  function ComposeName(n: Normalized): string {
    Join(Segments(n), SegmentSeparator)
  }

  /** The name starts with the trimmed account and a `-`, and ends with a
      `-` and its last segment: the trimmed editor when there is one, the
      trimmed script otherwise. */
  lemma NameEnds(n: Normalized)
    ensures Trim(n.account) + [SegmentSeparator] <= ComposeName(n)
    ensures var last := if EditorText(n) != "" then EditorText(n) else Trim(n.script);
      var r, t := ComposeName(n), [SegmentSeparator] + last;
      |t| <= |r| && r[|r| - |t|..] == t
  {
    var xs := Segments(n);
    SegmentsLayout(n);
    JoinEndsWithLast(xs, SegmentSeparator);
  }

  /** Splitting a name on `-` gives back its segments, provided no segment
      itself contains `-`. */
  lemma ComposeSplitRoundTrip(n: Normalized)
    requires forall k :: 0 <= k < |Segments(n)| ==> SegmentSeparator !in Segments(n)[k]
    ensures Split(ComposeName(n), SegmentSeparator) == Segments(n)
  {
    SplitJoin(Segments(n), SegmentSeparator);
  }

  /** Once the four generic rules pass, the name has three to five
      segments, none of them empty: account and script are always there,
      and so is the date. */
  lemma ValidSegments(n: Normalized, now: Instant)
    requires ValidateInputs(n.account, n.date, n.script, now).Pass?
    ensures 3 <= |Segments(n)| <= 5
    ensures forall k :: 0 <= k < |Segments(n)| ==> Segments(n)[k] != ""
  {
    assert Trim(n.account) != "" && Trim(n.script) != "";
    AssembleNonEmpty(Trim(n.account), FrameworkText(n), DateSegment(n.date), Trim(n.script), EditorText(n));
  }

  lemma AssembleNonEmpty(account: string, frameworks: string, date: Option<string>, script: string, editor: string)
    requires account != "" && script != "" && date.Some? && date.value != ""
    ensures var r := Assemble(account, frameworks, date, script, editor);
      && 3 <= |r| <= 5
      && forall k :: 0 <= k < |r| ==> r[k] != ""
  {
  }

  /** The framework segment appears when the list is non-empty, provided
      its values are non-empty, as parsed custom frameworks always are. */
  lemma FrameworkSegmentPresence(n: Normalized)
    requires forall k :: 0 <= k < |n.frameworks| ==> n.frameworks[k] != ""
    ensures FrameworkText(n) != "" <==> |n.frameworks| > 0
  {
  }

  /** In custom mode the framework segment parses back to the framework list. */
  lemma CustomFrameworkSegmentRoundTrip(raw: RawForm)
    requires IsCustomMode(raw.mode)
    ensures ParseCustomFrameworks(FrameworkText(Normalize(raw))) == Normalize(raw).frameworks
  {
    CustomFrameworkValuesRoundTrip(raw.mode, raw.presets, raw.customText);
  }

  /** The name reads only the calendar day of the date, not its time of day. */
  lemma NameIgnoresTimeOfDay(n: Normalized, day: Date, ms1: nat, ms2: nat)
    ensures ComposeName(n.(date := At(Instant(day, ms1)))) == ComposeName(n.(date := At(Instant(day, ms2))))
  {
  }
}
