/** Turns the loosely shaped form parameters into the canonical values the
    validator and the composer work on: the framework list, the single
    publish instant, and the text fields. Normalisation never fails. */
module Normalizer {
  import opened Wrappers
  import opened Text
  import opened Calendar

  /** One entry of the preset multiple-select: either a bare string or an
      option object whose `value` member may be missing. */
  datatype Selection = Plain(text: string) | Tagged(value: Option<string>)

  /** What the picker delivers for the publish date: nothing, one timestamp,
      or an array of timestamps. */
  datatype RawDate = NoRawDate | Single(at: Instant) | Many(all: seq<Instant>)

  /** The date after normalisation. `Unreadable` is what `new Date([])`
      makes of an empty array: an invalid date. */
  datatype DateValue = Absent | At(instant: Instant) | Unreadable

  /** The form parameters. An absent account, script or custom-framework
      text is the empty string, which is how the pipeline's `|| ''` reads
      it; `mode` is the `value` of the mode radio, if any. */
  datatype RawForm = RawForm(
    account: string,
    mode: Option<string>,
    presets: Option<seq<Selection>>,
    customText: string,
    date: RawDate,
    script: string,
    editor: Option<string>)

  /** The canonical values handed to the validator and the composer. */
  datatype Normalized = Normalized(
    account: string,
    customMode: bool,
    frameworks: seq<string>,
    date: DateValue,
    script: string,
    editor: Option<string>)

  /** The separator of the custom-framework text, and of the framework
      segment of the name. */
  const FrameworkSeparator: char := ','

  /** How `Array.prototype.join` spells an object that has no `toString` of its own. */
  const ObjectText: string := "[object Object]"

  /** Each comma-separated piece, trimmed. */
  function TrimEach(pieces: seq<string>): seq<string> {
    seq(|pieces|, k requires 0 <= k < |pieces| => Trim(pieces[k]))
  }

  /** The non-empty pieces, in their original order. */
  function DropEmpty(pieces: seq<string>): (r: seq<string>)
    ensures |r| <= |pieces|
    ensures forall k :: 0 <= k < |r| ==> r[k] != "" && r[k] in pieces
  {
    if pieces == [] then []
    else if pieces[0] == "" then DropEmpty(pieces[1..])
    else [pieces[0]] + DropEmpty(pieces[1..])
  }

  lemma {:induction false} DropEmptyAppend(a: seq<string>, b: seq<string>)
    ensures DropEmpty(a + b) == DropEmpty(a) + DropEmpty(b)
    decreases |a|
  {
    if a == [] {
      assert a + b == b;
    } else {
      assert (a + b)[1..] == a[1..] + b;
      DropEmptyAppend(a[1..], b);
    }
  }

  /** parseCustomFrameworks: split the free text on commas, trim every
      piece and keep the non-empty ones, in order and with duplicates. Blank
      text gives no frameworks at all. */
  function ParseCustomFrameworks(text: string): (r: seq<string>)
    ensures forall k :: 0 <= k < |r| ==> r[k] != "" && IsTrimmed(r[k]) && FrameworkSeparator !in r[k]
    ensures AllSpace(text) ==> r == []
  {
    TrimSpec(text);
    if Trim(text) == "" then []
    else
      var r := DropEmpty(TrimEach(Split(text, FrameworkSeparator)));
      assert forall k :: 0 <= k < |r| ==> IsTrimmed(r[k]) && FrameworkSeparator !in r[k] by {
        forall k | 0 <= k < |r| ensures IsTrimmed(r[k]) && FrameworkSeparator !in r[k] {
          var ps := Split(text, FrameworkSeparator);
          var j :| 0 <= j < |ps| && TrimEach(ps)[j] == r[k];
          TrimSpec(ps[j]);
          TrimNoNewChar(ps[j], FrameworkSeparator);
        }
      }
      r
  }

  /** Trimming never introduces a character. */
  lemma TrimNoNewChar(s: string, c: char)
    requires c !in s
    ensures c !in Trim(s)
  {
    TrimSpec(s);
    var n, r := LeadingSpace(s), Trim(s);
    forall k | 0 <= k < |r| ensures r[k] != c {
      assert r[k] == s[n + k];
    }
  }

  /** Every piece of an all-space text is itself all space. */
  lemma {:induction false} SplitOfSpace(s: string, sep: char)
    requires AllSpace(s) && !IsSpace(sep)
    ensures forall k :: 0 <= k < |Split(s, sep)| ==> AllSpace(Split(s, sep)[k])
    decreases |s|
  {
    if |s| > 0 {
      assert AllSpace(s[1..]) by {
        assert forall k :: 0 <= k < |s| - 1 ==> s[1..][k] == s[k + 1];
      }
      SplitOfSpace(s[1..], sep);
      var rest := Split(s[1..], sep);
      assert s[0] != sep;
      var head := [s[0]] + rest[0];
      assert AllSpace(head) by {
        AllSpaceConcat([s[0]], rest[0]);
      }
    }
  }

  lemma {:induction false} DropEmptyOfBlank(pieces: seq<string>)
    requires forall k :: 0 <= k < |pieces| ==> pieces[k] == ""
    ensures DropEmpty(pieces) == []
    decreases |pieces|
  {
    if pieces != [] {
      DropEmptyOfBlank(pieces[1..]);
    }
  }

  /** The early return for blank text is only a shortcut: the general
      split-trim-filter path gives the same empty list. */
  lemma ParseIsSplitTrimFilter(text: string)
    ensures ParseCustomFrameworks(text) == Pieces(text)
  {
    TrimSpec(text);
    if Trim(text) == "" {
      var ps := Split(text, FrameworkSeparator);
      SplitOfSpace(text, FrameworkSeparator);
      forall k | 0 <= k < |ps| ensures TrimEach(ps)[k] == "" {
        TrimSpec(ps[k]);
      }
      DropEmptyOfBlank(TrimEach(ps));
    }
  }

  /** The split-trim-filter path of the parser. */
  function Pieces(text: string): seq<string> {
    DropEmpty(TrimEach(Split(text, FrameworkSeparator)))
  }

  lemma TrimEachAppend(a: seq<string>, b: seq<string>)
    ensures TrimEach(a + b) == TrimEach(a) + TrimEach(b)
  {
  }

  /** Trimming the pieces a second time changes nothing. */
  lemma TrimEachIdempotent(pieces: seq<string>)
    ensures TrimEach(TrimEach(pieces)) == TrimEach(pieces)
  {
    forall k | 0 <= k < |pieces| ensures Trim(Trim(pieces[k])) == Trim(pieces[k]) {
      TrimIdempotent(pieces[k]);
    }
  }

  lemma PiecesAroundComma(a: string, b: string)
    ensures Pieces(a + [FrameworkSeparator] + b) == Pieces(a) + Pieces(b)
  {
    SplitAround(a, FrameworkSeparator, b);
    TrimEachAppend(Split(a, FrameworkSeparator), Split(b, FrameworkSeparator));
    DropEmptyAppend(TrimEach(Split(a, FrameworkSeparator)), TrimEach(Split(b, FrameworkSeparator)));
  }

  /** Parsing distributes over a comma: the frameworks of `a,b` are the
      frameworks of `a` followed by those of `b`, duplicates included. */
  lemma ParseAroundComma(a: string, b: string)
    ensures ParseCustomFrameworks(a + [FrameworkSeparator] + b)
         == ParseCustomFrameworks(a) + ParseCustomFrameworks(b)
  {
    ParseIsSplitTrimFilter(a + [FrameworkSeparator] + b);
    ParseIsSplitTrimFilter(a);
    ParseIsSplitTrimFilter(b);
    PiecesAroundComma(a, b);
  }

  /** A comma-free text is one framework, its trimmed self, unless it is blank. */
  lemma ParseOnePiece(a: string)
    requires FrameworkSeparator !in a
    ensures ParseCustomFrameworks(a) == if Trim(a) == "" then [] else [Trim(a)]
  {
    ParseIsSplitTrimFilter(a);
    SplitWithoutSeparator(a, FrameworkSeparator);
    assert TrimEach([a]) == [Trim(a)];
  }

  /** A trimmed, non-empty, comma-free text is exactly one framework. */
  lemma ParseTrimmedPiece(a: string)
    requires a != "" && IsTrimmed(a) && FrameworkSeparator !in a
    ensures ParseCustomFrameworks(a) == [a]
  {
    ParseOnePiece(a);
    TrimOfTrimmed(a);
  }

  /** Joining well-formed frameworks with commas and parsing the text gives
      the same list back. */
  lemma {:induction false} ParseJoinRoundTrip(xs: seq<string>)
    requires forall k :: 0 <= k < |xs| ==> xs[k] != "" && IsTrimmed(xs[k]) && FrameworkSeparator !in xs[k]
    ensures ParseCustomFrameworks(Join(xs, FrameworkSeparator)) == xs
  {
    if xs != [] {
      ParseIsSplitTrimFilter(Join(xs, FrameworkSeparator));
      SplitJoin(xs, FrameworkSeparator);
      TrimEachOfTrimmed(xs);
      DropEmptyKeepsNonEmpty(xs);
    }
  }

  lemma TrimEachOfTrimmed(xs: seq<string>)
    requires forall k :: 0 <= k < |xs| ==> IsTrimmed(xs[k])
    ensures TrimEach(xs) == xs
  {
    forall k | 0 <= k < |xs| ensures Trim(xs[k]) == xs[k] {
      TrimOfTrimmed(xs[k]);
    }
  }

  lemma TrimOfTrimmed(t: string)
    requires IsTrimmed(t)
    ensures Trim(t) == t
  {
    assert [] + t + [] == t;
    TrimOfPadded([], t, []);
  }

  lemma {:induction false} DropEmptyKeepsNonEmpty(xs: seq<string>)
    requires forall k :: 0 <= k < |xs| ==> xs[k] != ""
    ensures DropEmpty(xs) == xs
    decreases |xs|
  {
    if xs != [] {
      DropEmptyKeepsNonEmpty(xs[1..]);
      assert xs == [xs[0]] + xs[1..];
    }
  }

  /** `fw.value || fw`: the option's value when it is a non-empty string,
      otherwise the entry itself, which is the string for a bare string and
      the object's default spelling for an option object. */
  function SelectionText(e: Selection): string {
    match e
    case Plain(t) => t
    case Tagged(Some(v)) => if v != "" then v else ObjectText
    case Tagged(None) => ObjectText
  }

  /** Preset mode: one value per selected entry, same order, same length;
      no selection list means no frameworks. */
  function PresetValues(presets: Option<seq<Selection>>): seq<string> {
    match presets
    case None => []
    case Some(sels) => seq(|sels|, k requires 0 <= k < |sels| => SelectionText(sels[k]))
  }

  /** Preset selections concatenate: the values of two selection lists
      one after the other are the values of the first, then those of the
      second. */
  lemma PresetValuesAppend(a: seq<Selection>, b: seq<Selection>)
    ensures PresetValues(Some(a + b)) == PresetValues(Some(a)) + PresetValues(Some(b))
  {
  }

  /** The option objects of a list of non-empty values: what the preset
      multiple-select delivers when each entry is an option object. */
  function Options(values: seq<string>): seq<Selection> {
    seq(|values|, k requires 0 <= k < |values| => Tagged(Some(values[k])))
  }

  /** Option objects with non-empty values give back exactly those values. */
  lemma PresetValuesOfOptions(values: seq<string>)
    requires forall k :: 0 <= k < |values| ==> values[k] != ""
    ensures PresetValues(Some(Options(values))) == values
  {
  }

  /** Bare strings give back exactly themselves, the empty string included. */
  lemma PresetValuesOfStrings(values: seq<string>)
    ensures PresetValues(Some(seq(|values|, k requires 0 <= k < |values| => Plain(values[k])))) == values
  {
  }

  /** An option object whose `value` is missing or empty never contributes
      its (absent) value: it is spelled as an object. */
  lemma PresetValuesOfValuelessOption(a: seq<Selection>, v: Option<string>, b: seq<Selection>)
    requires v == None || v == Some("")
    ensures PresetValues(Some(a + [Tagged(v)] + b))
         == PresetValues(Some(a)) + [ObjectText] + PresetValues(Some(b))
  {
    PresetValuesAppend(a + [Tagged(v)], b);
    PresetValuesAppend(a, [Tagged(v)]);
  }

  /** Custom mode is chosen exactly when the mode radio's value is "custom". */
  predicate IsCustomMode(mode: Option<string>) {
    mode == Some("custom")
  }

  /** The framework values of the request: parsed from the free text in
      custom mode, taken from the preset selection otherwise. */
  function FrameworkValues(mode: Option<string>, presets: Option<seq<Selection>>, customText: string): seq<string> {
    if IsCustomMode(mode) then ParseCustomFrameworks(customText) else PresetValues(presets)
  }

  /** Each mode reads only its own field: the preset list does not matter
      in custom mode, the free text does not matter otherwise. */
  lemma FrameworkValuesReadOwnField(mode: Option<string>, p1: Option<seq<Selection>>, p2: Option<seq<Selection>>, c1: string, c2: string)
    ensures IsCustomMode(mode) ==> FrameworkValues(mode, p1, c1) == FrameworkValues(mode, p2, c1)
    ensures !IsCustomMode(mode) ==> FrameworkValues(mode, p1, c1) == FrameworkValues(mode, p1, c2)
  {
  }

  /** In custom mode the framework values are well formed, and writing them
      back as comma-separated text parses to the same values. */
  lemma CustomFrameworkValuesRoundTrip(mode: Option<string>, presets: Option<seq<Selection>>, customText: string)
    requires IsCustomMode(mode)
    ensures var r := FrameworkValues(mode, presets, customText);
      && (forall k :: 0 <= k < |r| ==> r[k] != "" && IsTrimmed(r[k]) && FrameworkSeparator !in r[k])
      && ParseCustomFrameworks(Join(r, FrameworkSeparator)) == r
  {
    ParseJoinRoundTrip(ParseCustomFrameworks(customText));
  }

  /** The instants the picker delivered, in order. */
  function Delivered(raw: RawDate): seq<Instant> {
    match raw
    case NoRawDate => []
    case Single(i) => [i]
    case Many(ts) => ts
  }

  /** The intended collapse keeps the first delivered instant, and there is
      no date exactly when nothing was delivered. */
  lemma CollapseDatePicksFirst(raw: RawDate)
    ensures CollapseDate(raw) == Absent <==> Delivered(raw) == []
    ensures Delivered(raw) != [] ==> CollapseDate(raw) == At(Delivered(raw)[0])
  {
  }

  /** As written, the collapse keeps the first delivered instant too, but
      only a missing date is absent: an empty array turns into an invalid
      date. */
  lemma CollapseDateAsWrittenPicksFirst(raw: RawDate)
    ensures CollapseDateAsWritten(raw) == Absent <==> raw == NoRawDate
    ensures CollapseDateAsWritten(raw) == Unreadable <==> raw == Many([])
    ensures Delivered(raw) != [] ==> CollapseDateAsWritten(raw) == At(Delivered(raw)[0])
  {
  }

  /** The date collapse as the pipeline writes it: a non-empty array gives
      its first element, anything else passes through, so an empty array
      reaches `new Date` and becomes an invalid date. */
  function CollapseDateAsWritten(raw: RawDate): DateValue {
    match raw
    case NoRawDate => Absent
    case Single(i) => At(i)
    case Many(ts) => if |ts| > 0 then At(ts[0]) else Unreadable
  }

  /** The date collapse as intended: an array contributes its first element
      only, and an empty array means no date was picked. */
  function CollapseDate(raw: RawDate): DateValue {
    match raw
    case NoRawDate => Absent
    case Single(i) => At(i)
    case Many(ts) => if |ts| > 0 then At(ts[0]) else Absent
  }

  /** The two collapses differ on the empty array only. */
  lemma CollapseDateDiffersOnEmptyArrayOnly(raw: RawDate)
    ensures CollapseDate(raw) != CollapseDateAsWritten(raw) <==> raw == Many([])
  {
  }

  function NormalizeWith(raw: RawForm, date: DateValue): Normalized {
    Normalized(
      raw.account,
      IsCustomMode(raw.mode),
      FrameworkValues(raw.mode, raw.presets, raw.customText),
      date,
      raw.script,
      raw.editor)
  }

  /** The normaliser: text fields pass through untrimmed, frameworks and
      date are collapsed to their canonical shapes. */
  function Normalize(raw: RawForm): Normalized {
    NormalizeWith(raw, CollapseDate(raw.date))
  }

  /** The normaliser exactly as the pipeline is written. */
  function NormalizeAsWritten(raw: RawForm): Normalized {
    NormalizeWith(raw, CollapseDateAsWritten(raw.date))
  }

  /** The intended and the as-written normaliser agree on every form except
      one whose date is an empty array. */
  lemma NormalizeAgreesOffEmptyArray(raw: RawForm)
    ensures Normalize(raw) == NormalizeAsWritten(raw) <==> raw.date != Many([])
  {
    CollapseDateDiffersOnEmptyArrayOnly(raw.date);
  }
}
