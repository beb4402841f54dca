/** Pure helpers of the application: menu-choice resolution, phone check,
    truncation, safe file names, display tables, duration formatting and
    the average response time of an interaction history. */
module Utils {
  import opened Wrappers
  import opened Text
  import opened Models
  import opened Seqs

  // ---------------------------------------------------------------------------
  // Menu choices

  /** What one line of user input does to a numbered menu. */
  datatype ChoiceOutcome =
    | Chosen(choice: string)   // the prompt returns this entry
    | Reprompt                 // "Invalid selection", ask again
    | IndexError               // the default index is outside the list: Python raises

  /** `choices[d]` with Python's negative indexing. */
  function PyIndex(choices: seq<string>, d: int): ChoiceOutcome {
    if 0 <= d < |choices| then Chosen(choices[d])
    else if -|choices| <= d < 0 then Chosen(choices[|choices| + d])
    else IndexError
  }

  /** The number a line names when, stripped, it is all digits (`int(choice)`
      after `choice.isdigit()`); `0`, never a valid entry, otherwise. */
  function MenuNumber(line: string): (n: nat)
    ensures IsDigitString(Strip(line)) ==> n == ParseDecimal(Strip(line))
    ensures !IsDigitString(Strip(line)) ==> n == 0
  {
    var input := Strip(line);
    if IsDigitString(input) then ParseDecimal(input) else 0
  }

  /** One pass of the `while True` loop of `prompt_choice` on the raw line `line`. */
  function ResolveChoice(line: string, choices: seq<string>, default: Option<int>): ChoiceOutcome {
    if |Strip(line)| == 0 && default.Some? then PyIndex(choices, default.value)
    else if 1 <= MenuNumber(line) <= |choices| then Chosen(choices[MenuNumber(line) - 1])
    else Reprompt
  }

  /** What one line does: an empty line takes the default (a negative default
      counts from the end, one out of range raises), a menu number in range
      takes that entry, everything else asks again. */
  lemma ResolveChoiceMeaning(line: string, choices: seq<string>, default: Option<int>)
    ensures var r := ResolveChoice(line, choices, default);
      && (Strip(line) == [] && default.Some? && 0 <= default.value < |choices| ==>
        r == Chosen(choices[default.value]))
      && (Strip(line) != [] && IsDigitString(Strip(line)) && 1 <= ParseDecimal(Strip(line)) <= |choices| ==>
        r == Chosen(choices[ParseDecimal(Strip(line)) - 1]))
      && (r.Chosen? ==> r.choice in choices)
      && (Strip(line) == [] && default.Some? && -|choices| <= default.value < 0 ==>
        r == Chosen(choices[|choices| + default.value]))
      && (r.IndexError? <==>
        Strip(line) == [] && default.Some? && !(-|choices| <= default.value < |choices|))
      && (r.Reprompt? <==>
        !(Strip(line) == [] && default.Some?)
        && !(IsDigitString(Strip(line)) && 1 <= ParseDecimal(Strip(line)) <= |choices|))
  {
  }

  /** The `while True` loop of a prompt fed the lines `lines`: each line goes
      through `step` until one gives an outcome that does not ask `again`. It
      returns that outcome and how many lines were read, or `None` when the
      input runs out first (where `input()` raises). */
  method PromptLoop<O>(lines: seq<string>, step: string -> O, again: O -> bool)
    returns (outcome: Option<O>, used: nat)
    ensures used <= |lines|
    ensures outcome.Some? ==> used >= 1 && outcome.value == step(lines[used - 1]) && !again(outcome.value)
    ensures outcome.None? ==> used == |lines|
    ensures forall j :: 0 <= j < used - 1 ==> again(step(lines[j]))
    ensures outcome.None? ==> forall j :: 0 <= j < |lines| ==> again(step(lines[j]))
  {
    used := 0;
    while used < |lines|
      invariant used <= |lines|
      invariant forall j :: 0 <= j < used ==> again(step(lines[j]))
    {
      var o := step(lines[used]);
      if !again(o) {
        return Some(o), used + 1;
      }
      used := used + 1;
    }
    return None, used;
  }

  /** `ResolveChoice` for a fixed menu, as the step of the prompt loop. */
  function ChoiceStep(choices: seq<string>, default: Option<int>): (step: string -> ChoiceOutcome)
    ensures forall line :: step(line) == ResolveChoice(line, choices, default)
  {
    line => ResolveChoice(line, choices, default)
  }

  /** `prompt_choice`: the menu loop with `ResolveChoice` as its step. */
  method PromptChoice(lines: seq<string>, choices: seq<string>, default: Option<int>)
    returns (outcome: Option<ChoiceOutcome>, used: nat)
    ensures used <= |lines|
    ensures outcome.Some? ==>
      used >= 1 && outcome.value == ResolveChoice(lines[used - 1], choices, default)
      && !outcome.value.Reprompt?
    ensures outcome.None? ==> used == |lines|
    ensures forall j :: 0 <= j < used - 1 ==> ResolveChoice(lines[j], choices, default).Reprompt?
    ensures outcome.None? ==> forall j :: 0 <= j < |lines| ==> ResolveChoice(lines[j], choices, default).Reprompt?
  {
    outcome, used := PromptLoop(lines, ChoiceStep(choices, default), (o: ChoiceOutcome) => o.Reprompt?);
  }

  // ---------------------------------------------------------------------------
  // Phone numbers

  /** `re.sub(r'\D', '', s)` */
  function DigitsOnly(s: string): (r: string)
    ensures AllDigits(r) && |r| <= |s|
  {
    if |s| == 0 then [] else (if IsDigit(s[0]) then [s[0]] else []) + DigitsOnly(s[1..])
  }

  /** `validate_phone`: between 7 and 15 digits, whatever else surrounds them. */
  function ValidatePhone(s: string): (r: bool)
    ensures r ==> 7 <= |s|
    ensures AllDigits(s) ==> (r <==> 7 <= |s| <= 15)
  {
    DigitsOnlyOfDigits(s);
    7 <= |DigitsOnly(s)| <= 15
  }

  lemma {:induction false} DigitsOnlyOfDigits(s: string)
    ensures AllDigits(s) ==> DigitsOnly(s) == s
  {
    if |s| > 0 {
      DigitsOnlyOfDigits(s[1..]);
    }
  }

  lemma {:induction false} DigitsOnlyAppend(a: string, b: string)
    ensures DigitsOnly(a + b) == DigitsOnly(a) + DigitsOnly(b)
  {
    if |a| > 0 {
      DigitsOnlyAppend(a[1..], b);
      assert (a + b)[1..] == a[1..] + b;
    } else {
      assert a + b == b;
    }
  }

  /** Separators do not matter: inserting a non-digit anywhere keeps the verdict. */
  lemma PhoneIgnoresSeparators(a: string, c: char, b: string)
    requires !IsDigit(c)
    ensures ValidatePhone(a + [c] + b) == ValidatePhone(a + b)
  {
    DigitsOnlyAppend(a + [c], b);
    DigitsOnlyAppend(a, [c]);
    DigitsOnlyAppend(a, b);
  }

  // ---------------------------------------------------------------------------
  // Truncation

  /** `truncate_text(text, max_length)` */
  function TruncateText(text: string, maxLength: int): (r: string)
    ensures |text| <= maxLength ==> r == text
    ensures |text| > maxLength ==>
      3 <= |r| <= |text| + 3 && r[|r| - 3..] == "..." && r[..|r| - 3] == text[..|r| - 3]
    ensures |text| > maxLength >= 3 ==> |r| == maxLength
  {
    if |text| <= maxLength then text else PyPrefix(text, maxLength - 3) + "..."
  }

  // ---------------------------------------------------------------------------
  // Safe file names

  /** The characters `[<>:"/\\|?*]` */
  predicate IsForbidden(c: char) {
    c == '<' || c == '>' || c == ':' || c == '"' || c == '/' || c == '\\' || c == '|' || c == '?' || c == '*'
  }

  /** Characters of the run pattern `[\s-]` */
  predicate IsRunChar(c: char) {
    IsSpace(c) || c == '-'
  }

  predicate IsDash(c: char) {
    c == '-'
  }

  predicate NoDoubleDash(s: string) {
    forall i :: 0 <= i < |s| - 1 ==> !(s[i] == '-' && s[i + 1] == '-')
  }

  /** The character-level guarantees of a safe name. */
  predicate SafeChars(s: string) {
    forall i :: 0 <= i < |s| ==> !IsForbidden(s[i]) && !IsSpace(s[i]) && !IsUpper(s[i])
  }

  predicate NoEdgeDash(s: string) {
    |s| == 0 || (s[0] != '-' && s[|s| - 1] != '-')
  }

  /** `re.sub(r'[<>:"/\\|?*]', '-', s)` */
  function ReplaceForbidden(s: string): (r: string)
    ensures |r| == |s|
    ensures forall i :: 0 <= i < |s| ==> r[i] == if IsForbidden(s[i]) then '-' else s[i]
  {
    if |s| == 0 then [] else [if IsForbidden(s[0]) then '-' else s[0]] + ReplaceForbidden(s[1..])
  }

  /** `re.sub(r'[\s-]+', '-', s)`: every maximal run of whitespace and hyphens
      becomes one hyphen. */
  function CollapseRuns(s: string): (r: string)
    ensures forall i :: 0 <= i < |r| ==> r[i] == '-' || (r[i] in s && !IsRunChar(r[i]))
    ensures |s| > 0 && !IsRunChar(s[0]) ==> |r| > 0 && r[0] == s[0]
    ensures |s| > 0 && IsRunChar(s[0]) ==> |r| > 0 && r[0] == '-'
    ensures NoDoubleDash(r)
    decreases |s|
  {
    if |s| == 0 then []
    else if IsRunChar(s[0]) then
      var rest := TrimStart(s, IsRunChar);
      "-" + CollapseRuns(rest)
    else [s[0]] + CollapseRuns(s[1..])
  }

  /** The word characters of a name: those that are neither forbidden, nor
      whitespace, nor `-`. `safe_filename` keeps exactly these, lower-cased,
      and turns everything between them into single hyphens. */
  function WordChars(s: string): string {
    if |s| == 0 then []
    else (if IsWordChar(s[0]) then [s[0]] else []) + WordChars(s[1..])
  }

  predicate IsWordChar(c: char) {
    !IsForbidden(c) && !IsRunChar(c)
  }

  /** `safe_filename(name)` */
  function SafeFilename(name: string): (r: string)
    ensures SafeChars(r) && NoDoubleDash(r) && NoEdgeDash(r)
    ensures WordChars(r) == Lower(WordChars(name))
  {
    var replaced := ReplaceForbidden(name);
    var collapsed := CollapseRuns(replaced);
    var stripped := TrimEnd(TrimStart(collapsed, IsDash), IsDash);
    CollapseClean(replaced);
    StripClean(collapsed);
    LowerClean(stripped);
    WordCharsReplace(name);
    WordCharsCollapse(replaced);
    WordCharsTrim(collapsed);
    WordCharsLower(stripped);
    Lower(stripped)
  }

  lemma {:induction false} WordCharsAppend(a: string, b: string)
    ensures WordChars(a + b) == WordChars(a) + WordChars(b)
  {
    if |a| > 0 {
      WordCharsAppend(a[1..], b);
      assert (a + b)[1..] == a[1..] + b;
    } else {
      assert a + b == b;
    }
  }

  /** Dropping a front that holds no word character. */
  lemma {:induction false} WordCharsDropFront(s: string, k: int)
    requires 0 <= k <= |s|
    requires forall i :: 0 <= i < k ==> !IsWordChar(s[i])
    ensures WordChars(s[k..]) == WordChars(s)
    decreases k
  {
    if k > 0 {
      assert s[1..][k - 1..] == s[k..];
      assert forall i :: 0 <= i < k - 1 ==> s[1..][i] == s[i + 1];
      WordCharsDropFront(s[1..], k - 1);
    } else {
      assert s[k..] == s;
    }
  }

  /** Dropping a back that holds no word character. */
  lemma WordCharsDropBack(s: string, k: int)
    requires 0 <= k <= |s|
    requires forall i :: k <= i < |s| ==> !IsWordChar(s[i])
    ensures WordChars(s[..k]) == WordChars(s)
  {
    assert s == s[..k] + s[k..];
    WordCharsAppend(s[..k], s[k..]);
    assert forall i :: 0 <= i < |s| - k ==> s[k..][i] == s[k + i];
    WordCharsNone(s[k..]);
  }

  lemma {:induction false} WordCharsNone(s: string)
    requires forall i :: 0 <= i < |s| ==> !IsWordChar(s[i])
    ensures WordChars(s) == []
  {
    if |s| > 0 {
      WordCharsNone(s[1..]);
    }
  }

  /** Forbidden characters become hyphens, which are not word characters. */
  lemma {:induction false} WordCharsReplace(s: string)
    ensures WordChars(ReplaceForbidden(s)) == WordChars(s)
  {
    if |s| > 0 {
      WordCharsReplace(s[1..]);
      assert ReplaceForbidden(s)[1..] == ReplaceForbidden(s[1..]);
    }
  }

  /** Collapsing a run of whitespace and hyphens drops no word character. */
  lemma {:induction false} WordCharsCollapse(s: string)
    ensures WordChars(CollapseRuns(s)) == WordChars(s)
    decreases |s|
  {
    if |s| > 0 {
      if IsRunChar(s[0]) {
        var rest := TrimStart(s, IsRunChar);
        var k := |s| - |rest|;
        WordCharsCollapse(rest);
        assert s == s[..k] + rest;
        WordCharsAppend(s[..k], rest);
        WordCharsNone(s[..k]);
        assert ("-" + CollapseRuns(rest))[1..] == CollapseRuns(rest);
      } else {
        WordCharsCollapse(s[1..]);
        assert ([s[0]] + CollapseRuns(s[1..]))[1..] == CollapseRuns(s[1..]);
      }
    }
  }

  /** Stripping edge hyphens drops no word character. */
  lemma WordCharsTrim(s: string)
    ensures WordChars(TrimEnd(TrimStart(s, IsDash), IsDash)) == WordChars(s)
  {
    var front := TrimStart(s, IsDash);
    var t := TrimEnd(front, IsDash);
    WordCharsDropFront(s, |s| - |front|);
    WordCharsDropBack(front, |t|);
  }

  /** Lower-casing maps word characters to word characters and nothing else. */
  lemma {:induction false} WordCharsLower(s: string)
    ensures WordChars(Lower(s)) == Lower(WordChars(s))
  {
    if |s| > 0 {
      WordCharsLower(s[1..]);
      assert Lower(s)[1..] == Lower(s[1..]);
      assert IsWordChar(LowerChar(s[0])) <==> IsWordChar(s[0]);
      if IsWordChar(s[0]) {
        assert Lower([s[0]] + WordChars(s[1..])) == [LowerChar(s[0])] + Lower(WordChars(s[1..]));
      }
    }
  }

  /** A name made only of word characters is just lower-cased. */
  lemma SafeFilenameOfWord(name: string)
    requires forall i :: 0 <= i < |name| ==> IsWordChar(name[i])
    ensures SafeFilename(name) == Lower(name)
  {
    assert ReplaceForbidden(name) == name;
    CollapseKeepsClean(name);
    TrimKeepsEdges(name);
  }

  /** No forbidden character and no whitespace. */
  predicate Clean(s: string) {
    forall i :: 0 <= i < |s| ==> !IsForbidden(s[i]) && !IsSpace(s[i])
  }

  /** Stripping the edge hyphens of a clean string. */
  lemma StripClean(c: string)
    requires Clean(c) && NoDoubleDash(c)
    ensures var t := TrimEnd(TrimStart(c, IsDash), IsDash);
      Clean(t) && NoDoubleDash(t) && NoEdgeDash(t)
  {
    var front := TrimStart(c, IsDash);
    var t := TrimEnd(front, IsDash);
    SliceClean(c, |c| - |front|, |c|);
    SliceClean(front, 0, |t|);
    if |t| > 0 {
      assert t[0] == front[0];
    }
  }

  lemma CollapseClean(s: string)
    requires forall i :: 0 <= i < |s| ==> !IsForbidden(s[i])
    ensures Clean(CollapseRuns(s))
  {
    var r := CollapseRuns(s);
    forall i | 0 <= i < |r|
      ensures !IsForbidden(r[i]) && !IsSpace(r[i])
    {
      if r[i] != '-' {
        var k :| 0 <= k < |s| && s[k] == r[i];
      }
    }
  }

  lemma SliceClean(s: string, lo: int, hi: int)
    requires 0 <= lo <= hi <= |s| && Clean(s) && NoDoubleDash(s)
    ensures Clean(s[lo..hi]) && NoDoubleDash(s[lo..hi])
  {
    var t := s[lo..hi];
    assert forall i :: 0 <= i < |t| ==> t[i] == s[lo + i];
  }

  lemma LowerClean(s: string)
    requires Clean(s) && NoDoubleDash(s) && NoEdgeDash(s)
    ensures SafeChars(Lower(s)) && NoDoubleDash(Lower(s)) && NoEdgeDash(Lower(s))
  {
    var low := Lower(s);
    forall i | 0 <= i < |s|
      ensures (low[i] == '-' <==> s[i] == '-') && !IsForbidden(low[i])
    {
      assert low[i] == LowerChar(s[i]);
    }
  }

  /** A safe name is left as it is. */
  lemma {:induction false} SafeFilenameFixesSafeNames(s: string)
    requires SafeChars(s) && NoDoubleDash(s) && NoEdgeDash(s)
    ensures SafeFilename(s) == s
  {
    ReplaceKeepsSafe(s);
    CollapseKeepsClean(s);
    TrimKeepsEdges(s);
    LowerKeepsSafe(s);
  }

  lemma ReplaceKeepsSafe(s: string)
    requires SafeChars(s)
    ensures ReplaceForbidden(s) == s
  {
    assert forall i :: 0 <= i < |s| ==> ReplaceForbidden(s)[i] == s[i];
  }

  lemma TrimKeepsEdges(s: string)
    requires NoEdgeDash(s)
    ensures TrimStart(s, IsDash) == s && TrimEnd(s, IsDash) == s
  {
    assert TrimStart(s, IsDash) == s;
  }

  lemma LowerKeepsSafe(s: string)
    requires SafeChars(s)
    ensures Lower(s) == s
  {
    assert forall i :: 0 <= i < |s| ==> Lower(s)[i] == s[i];
  }

  lemma {:induction false} CollapseKeepsClean(s: string)
    requires forall i :: 0 <= i < |s| ==> !IsSpace(s[i])
    requires NoDoubleDash(s)
    ensures CollapseRuns(s) == s
    decreases |s|
  {
    if |s| > 0 {
      if IsRunChar(s[0]) {
        var rest := TrimStart(s, IsRunChar);
        if |s| > 1 {
          assert !IsRunChar(s[1]);
          assert rest == s[1..];
        } else {
          assert rest == [];
        }
        CollapseKeepsClean(rest);
      } else {
        CollapseKeepsClean(s[1..]);
      }
    }
  }

  /** Applying `safe_filename` twice is the same as applying it once. */
  lemma SafeFilenameIdempotent(name: string)
    ensures SafeFilename(SafeFilename(name)) == SafeFilename(name)
  {
    SafeFilenameFixesSafeNames(SafeFilename(name));
  }

  // ---------------------------------------------------------------------------
  // Display tables

  const InterestDescriptions: map<int, string> := map[
    1 := "Very Low - Not interested",
    2 := "Low - Minimal interest",
    3 := "Medium - Somewhat interested",
    4 := "High - Very interested",
    5 := "Very High - Extremely interested"]

  /** `get_interest_level_description(level)` */
  function InterestLevelDescription(level: int): (r: string)
    ensures 1 <= level <= 5 ==> r == InterestDescriptions[level]
    ensures r == "Unknown" <==> !(1 <= level <= 5)
  {
    if level in InterestDescriptions then InterestDescriptions[level] else "Unknown"
  }

  const StatusColors: map<string, string> := map[
    "active" := "green", "inactive" := "yellow", "rejected" := "red",
    "offer" := "blue", "interview" := "cyan"]

  /** `get_status_color(status)` */
  function StatusColor(status: string): (r: string)
    ensures r in {"green", "yellow", "red", "blue", "cyan", "white"}
    ensures r == "white" <==> Lower(status) !in StatusColors
    ensures Lower(status) in StatusColors ==> r == StatusColors[Lower(status)]
  {
    if Lower(status) in StatusColors then StatusColors[Lower(status)] else "white"
  }

  lemma {:induction false} LowerIdempotent(s: string)
    ensures Lower(Lower(s)) == Lower(s)
  {
    assert forall i :: 0 <= i < |s| ==> LowerChar(LowerChar(s[i])) == LowerChar(s[i]);
  }

  /** The colour lookup ignores case. */
  lemma StatusColorIgnoresCase(status: string)
    ensures StatusColor(Lower(status)) == StatusColor(status)
  {
    LowerIdempotent(status);
  }

  // ---------------------------------------------------------------------------
  // Durations

  datatype DurationUnit = Days | Hours | Minutes

  /** The count and unit `format_duration` reports for a duration of `seconds`:
      days when there is at least one, else hours of the leftover day, else minutes. */
  function DurationParts(seconds: int): (r: (nat, DurationUnit))
    ensures r.1 == Days <==> seconds >= 86400
    ensures r.1 == Days ==> r.0 * 86400 <= seconds < r.0 * 86400 + 86400 && r.0 >= 1
    ensures r.1 == Hours ==> r.0 >= 1 && r.0 * 3600 <= seconds % 86400 < r.0 * 3600 + 3600
    ensures r.1 == Minutes ==> seconds % 86400 < 3600 && r.0 * 60 <= seconds % 86400 < r.0 * 60 + 60
  {
    var days := seconds / 86400;
    var rest := seconds % 86400;
    var hours := rest / 3600;
    if days > 0 then (days, Days)
    else if hours > 0 then (hours, Hours)
    else ((rest % 3600) / 60, Minutes)
  }

  function UnitName(u: DurationUnit): string {
    match u
    case Days => "day"
    case Hours => "hour"
    case Minutes => "minute"
  }

  /** `format_duration(timedelta(seconds=seconds))` */
  function FormatDuration(seconds: int): string {
    var (n, u) := DurationParts(seconds);
    Decimal(n) + " " + UnitName(u) + (if n != 1 then "s" else "")
  }

  /** The position of the first `c` in `s`, or `|s|` when there is none. */
  function IndexOf(s: string, c: char): (i: nat)
    ensures i <= |s|
    ensures i < |s| ==> s[i] == c
    ensures forall j :: 0 <= j < i ==> s[j] != c
  {
    if |s| == 0 then 0
    else if s[0] == c then 0
    else 1 + IndexOf(s[1..], c)
  }

  /** The unit a word names, in the grammatical number its count needs. */
  function UnitOfWord(w: string, n: nat): Option<DurationUnit> {
    if w == UnitName(Days) + (if n != 1 then "s" else "") then Some(Days)
    else if w == UnitName(Hours) + (if n != 1 then "s" else "") then Some(Hours)
    else if w == UnitName(Minutes) + (if n != 1 then "s" else "") then Some(Minutes)
    else None
  }

  /** Reads a rendered duration back: a decimal count, one space, and the unit
      word, plural exactly when the count is not one. */
  function ReadDuration(text: string): Option<(nat, DurationUnit)> {
    var k := IndexOf(text, ' ');
    if k < |text| && IsDigitString(text[..k]) then
      var n := ParseDecimal(text[..k]);
      match UnitOfWord(text[k + 1..], n)
      case Some(u) => Some((n, u))
      case None => None
    else None
  }

  /** The rendered duration reads back as the count and unit `DurationParts`
      selects, and it ends in `s` exactly when the count is not one. */
  lemma FormatDurationReads(seconds: int)
    ensures ReadDuration(FormatDuration(seconds)) == Some(DurationParts(seconds))
    ensures var r := FormatDuration(seconds);
      |r| > 0 && (r[|r| - 1] == 's' <==> DurationParts(seconds).0 != 1)
  {
    var (n, u) := DurationParts(seconds);
    var digits := Decimal(n);
    var word := UnitName(u) + (if n != 1 then "s" else "");
    var r := FormatDuration(seconds);
    assert r == digits + [' '] + word;
    assert forall j :: 0 <= j < |digits| ==> r[j] == digits[j] && IsDigit(digits[j]);
    assert forall j :: 0 <= j < |digits| ==> r[j] != ' ';
    assert r[|digits|] == ' ';
    assert IndexOf(r, ' ') == |digits|;
    assert r[..|digits|] == digits;
    assert r[|digits| + 1..] == word;
    ParseDecimalOfDecimal(n);
  }

  // ---------------------------------------------------------------------------
  // Average response time

  /** The non-negative whole-day gap between interactions `i - 1` and `i`, if
      both dates parse. */
  function GapAt(dates: seq<Option<int>>, i: int): Option<int>
    requires 1 <= i < |dates|
  {
    if dates[i - 1].Some? && dates[i].Some? && WholeDays(dates[i].value - dates[i - 1].value) >= 0
    then Some(WholeDays(dates[i].value - dates[i - 1].value))
    else None
  }

  /** The gaps counted, pair by pair, for pairs `1..n-1`. */
  function Gaps(dates: seq<Option<int>>, n: nat): (g: seq<int>)
    requires n <= |dates|
    ensures forall i :: 0 <= i < |g| ==> g[i] >= 0
    ensures |g| <= (if n == 0 then 0 else n - 1)
  {
    if n <= 1 then []
    else Gaps(dates, n - 1) + (if GapAt(dates, n - 1).Some? then [GapAt(dates, n - 1).value] else [])
  }

  function Sum(g: seq<int>): int {
    if |g| == 0 then 0 else Sum(g[..|g| - 1]) + g[|g| - 1]
  }

  /** The intended answer: the floor of the mean gap, or `None`. */
  function ResponseTime(dates: seq<Option<int>>): Option<int> {
    if |dates| < 2 then None
    else
      var g := Gaps(dates, |dates|);
      if |g| == 0 then None else Some(Sum(g) / |g|)
  }

  /** `calculate_response_time(interactions)`, with each interaction's date
      already parsed (`None` when the key is missing or the text does not parse). */
  method CalculateResponseTime(dates: seq<Option<int>>) returns (r: Option<int>)
    ensures r == ResponseTime(dates)
    ensures |dates| < 2 ==> r.None?
  {
    if |dates| < 2 {
      return None;
    }
    var total := 0;
    var count := 0;
    var i := 1;
    while i < |dates|
      invariant 1 <= i <= |dates|
      invariant count == |Gaps(dates, i)|
      invariant total == Sum(Gaps(dates, i))
    {
      var gap := GapAt(dates, i);
      SumAppend(Gaps(dates, i), if gap.Some? then [gap.value] else []);
      if gap.Some? {
        total := total + gap.value;
        count := count + 1;
      }
      i := i + 1;
    }
    if count > 0 {
      r := Some(total / count);
    } else {
      r := None;
    }
  }

  lemma SumAppend(g: seq<int>, h: seq<int>)
    requires |h| <= 1
    ensures Sum(g + h) == Sum(g) + Sum(h)
  {
    if |h| == 1 {
      assert (g + h)[..|g + h| - 1] == g;
    } else {
      assert g + h == g;
    }
  }

  lemma {:induction false} SumBounds(g: seq<int>, m: int)
    requires forall i :: 0 <= i < |g| ==> 0 <= g[i] <= m
    ensures 0 <= Sum(g) <= |g| * m
  {
    if |g| > 0 {
      SumBounds(g[..|g| - 1], m);
    }
  }

  /** The average lies between zero and the longest counted gap. */
  lemma ResponseTimeBounds(dates: seq<Option<int>>, m: int)
    requires forall i :: 1 <= i < |dates| && GapAt(dates, i).Some? ==> GapAt(dates, i).value <= m
    ensures ResponseTime(dates).Some? ==> 0 <= ResponseTime(dates).value <= m
  {
    if |dates| >= 2 {
      var g := Gaps(dates, |dates|);
      GapsBounded(dates, |dates|, m);
      if |g| > 0 {
        SumBounds(g, m);
        DivBound(Sum(g), |g|, m);
      }
    }
  }

  lemma {:induction false} GapsBounded(dates: seq<Option<int>>, n: nat, m: int)
    requires n <= |dates|
    requires forall i :: 1 <= i < |dates| && GapAt(dates, i).Some? ==> GapAt(dates, i).value <= m
    ensures forall i :: 0 <= i < |Gaps(dates, n)| ==> Gaps(dates, n)[i] <= m
  {
    if n > 1 {
      GapsBounded(dates, n - 1, m);
    }
  }

  lemma DivBound(s: int, n: int, m: int)
    requires n > 0 && 0 <= s <= n * m
    ensures 0 <= s / n <= m
  {
  }
}
