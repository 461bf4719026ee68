/**
 * The date-pattern helpers: the named patterns of `DatePatternFormat` and `replaceCharacters`,
 * which swaps the default separators '-' and ':' of a pattern for caller-chosen ones before the
 * pattern reaches `SimpleDateFormat`. Parsing and formatting themselves are not modelled.
 */
module DatePatterns {

  const DATE_SEPARATOR: char := '-'
  const TIME_SEPARATOR: char := ':'

  datatype DatePatternFormat =
    | RFC_822
    | ISO_8601
    | ISO_8601_SHORT
    | DATE_TIME_FORMAT
    | FULL_DATE_FORMAT
    | LONG_DATE_FORMAT
    | LONG_DATE_FORMAT_D_M_Y
    | LONG_DATE_FORMAT_D_M
    | SHORT_DATE_FORMAT_D_M_Y
    | SHORT_DATE_FORMAT_M_Y
    | SHORT_DATE_FORMAT_D_M
    | SHORT_DATE_FORMAT_Y_M_D
    | SHORT_DATE_FORMAT_Y_M
    | SHORT_DATE_FORMAT_M_D
    | FULL_TIME_FORMAT
    | LONG_TIME_FORMAT
    | TIME_FORMAT
  {
    function Pattern(): string
    {
      match this
      case RFC_822 => "yyyy-MM-dd'T'HH:mm:ssZ"
      case ISO_8601 => "yyyy-MM-dd'T'HH:mm:ss.SSS'Z'"
      case ISO_8601_SHORT => "yyyy-MM-dd'T'HH:mm:ss'Z'"
      case DATE_TIME_FORMAT => "yyyy-MM-dd HH:mm:ss"
      case FULL_DATE_FORMAT => "EEEE d MMMM"
      case LONG_DATE_FORMAT => "E d MMMM"
      case LONG_DATE_FORMAT_D_M_Y => "dd MMM yyyy"
      case LONG_DATE_FORMAT_D_M => "dd MMM"
      case SHORT_DATE_FORMAT_D_M_Y => "dd-MM-yyyy"
      case SHORT_DATE_FORMAT_M_Y => "MM-yyyy"
      case SHORT_DATE_FORMAT_D_M => "dd-MM"
      case SHORT_DATE_FORMAT_Y_M_D => "yyyy-MM-dd"
      case SHORT_DATE_FORMAT_Y_M => "yyyy-MM"
      case SHORT_DATE_FORMAT_M_D => "MM-dd"
      case FULL_TIME_FORMAT => "HH:mm:ss.SSS"
      case LONG_TIME_FORMAT => "HH:mm:ss"
      case TIME_FORMAT => "HH:mm"
    }
  }

  /** Kotlin's `String.replace(oldChar, newChar)`: every occurrence, case-sensitively. */
  function Replace(s: string, oldChar: char, newChar: char): (r: string)
    ensures |r| == |s|
    ensures forall i :: 0 <= i < |s| ==> r[i] == (if s[i] == oldChar then newChar else s[i])
  {
    if |s| == 0 then []
    else [if s[0] == oldChar then newChar else s[0]] + Replace(s[1..], oldChar, newChar)
  }

  /** Replacing a character by one the string does not contain can be undone. */
  lemma ReplaceUndone(s: string, oldChar: char, newChar: char)
    requires newChar !in s
    ensures Replace(Replace(s, oldChar, newChar), newChar, oldChar) == s
  {
    var r := Replace(Replace(s, oldChar, newChar), newChar, oldChar);
    forall i | 0 <= i < |s|
      ensures r[i] == s[i]
    {
      assert s[i] in s;
    }
  }

  /**
   * `replaceCharacters` as written: both replacements start from `pattern`, so when both
   * separators differ from the defaults the second result overwrites the first.
   */
  function ReplaceCharacters(pattern: string, dateSeparator: char, timeSeparator: char): string
  {
    var afterDate := if dateSeparator != DATE_SEPARATOR then Replace(pattern, DATE_SEPARATOR, dateSeparator) else pattern;
    if timeSeparator != TIME_SEPARATOR then Replace(pattern, TIME_SEPARATOR, timeSeparator) else afterDate
  }

  /** Whatever the separators, the cleaned pattern is as long as the original. */
  lemma ReplaceCharactersKeepsLength(pattern: string, dateSeparator: char, timeSeparator: char)
    ensures |ReplaceCharacters(pattern, dateSeparator, timeSeparator)| == |pattern|
  {
  }

  /** With both separators at their defaults the pattern is returned unchanged. */
  lemma DefaultsKeepPattern(pattern: string)
    ensures ReplaceCharacters(pattern, DATE_SEPARATOR, TIME_SEPARATOR) == pattern
  {
  }

  /** With only the date separator changed, every '-' becomes it and nothing else changes. */
  lemma OnlyDateSeparator(pattern: string, dateSeparator: char)
    requires dateSeparator != DATE_SEPARATOR
    ensures var r := ReplaceCharacters(pattern, dateSeparator, TIME_SEPARATOR);
      |r| == |pattern| && forall i :: 0 <= i < |pattern| ==>
        r[i] == (if pattern[i] == DATE_SEPARATOR then dateSeparator else pattern[i])
  {
  }

  /** With only the time separator changed, every ':' becomes it and nothing else changes. */
  lemma OnlyTimeSeparator(pattern: string, timeSeparator: char)
    requires timeSeparator != TIME_SEPARATOR
    ensures var r := ReplaceCharacters(pattern, DATE_SEPARATOR, timeSeparator);
      |r| == |pattern| && forall i :: 0 <= i < |pattern| ==>
        r[i] == (if pattern[i] == TIME_SEPARATOR then timeSeparator else pattern[i])
  {
  }

  /** With both changed, only ':' is replaced: every '-' of the pattern survives. */
  lemma BothSeparatorsLoseDate(pattern: string, dateSeparator: char, timeSeparator: char)
    requires dateSeparator != DATE_SEPARATOR && timeSeparator != TIME_SEPARATOR
    ensures var r := ReplaceCharacters(pattern, dateSeparator, timeSeparator);
      r == Replace(pattern, TIME_SEPARATOR, timeSeparator)
      && forall i :: 0 <= i < |pattern| && pattern[i] == DATE_SEPARATOR ==> r[i] == DATE_SEPARATOR
  {
  }

  /**
   * `dd-MM HH:mm` with separators '/' and '.' comes out as `dd-MM HH.mm` where `dd/MM HH.mm`
   * was asked for: the '/' never appears.
   */
  lemma DateSeparatorLost(p: string)
    requires p == "dd-MM HH:mm"
    ensures ReplaceCharacters(p, '/', '.') == "dd-MM HH.mm"
    ensures ReplaceCharacters(p, '/', '.')[2] == '-' != ReplaceSeparators(p, '/', '.')[2]
  {
    BothSeparatorsLoseDate(p, '/', '.');
    ReplaceSeparatorsReplacesBoth(p, '/', '.');
    var r := Replace(p, TIME_SEPARATOR, '.');
    assert |r| == 11;
    assert forall i :: 0 <= i < 11 ==> r[i] == "dd-MM HH.mm"[i];
  }

  /**
   * The evidently intended behaviour: the time replacement continues from the result of the
   * date replacement, so both separators take effect.
   */
  function ReplaceSeparators(pattern: string, dateSeparator: char, timeSeparator: char): string
  {
    var afterDate := if dateSeparator != DATE_SEPARATOR then Replace(pattern, DATE_SEPARATOR, dateSeparator) else pattern;
    if timeSeparator != TIME_SEPARATOR then Replace(afterDate, TIME_SEPARATOR, timeSeparator) else afterDate
  }

  /**
   * Every '-' becomes the date separator and every ':' the time separator, and nothing else
   * changes, unless the new date separator is ':' itself (then the time replacement also
   * rewrites it, as chained `replace` calls do).
   */
  lemma ReplaceSeparatorsReplacesBoth(pattern: string, dateSeparator: char, timeSeparator: char)
    requires dateSeparator != TIME_SEPARATOR
    ensures var r := ReplaceSeparators(pattern, dateSeparator, timeSeparator);
      |r| == |pattern| && forall i :: 0 <= i < |pattern| ==>
        r[i] == (if pattern[i] == DATE_SEPARATOR then dateSeparator
                 else if pattern[i] == TIME_SEPARATOR then timeSeparator
                 else pattern[i])
  {
  }

  /** The corrected and the as-written helpers agree whenever at most one separator changes. */
  lemma AgreeOnSingleChange(pattern: string, dateSeparator: char, timeSeparator: char)
    requires dateSeparator == DATE_SEPARATOR || timeSeparator == TIME_SEPARATOR
    ensures ReplaceSeparators(pattern, dateSeparator, timeSeparator) == ReplaceCharacters(pattern, dateSeparator, timeSeparator)
  {
  }

  /**
   * The pattern `parseWithPattern` and `formatWithPattern` hand to `SimpleDateFormat` for a
   * named format: the format's pattern passed through `replaceCharacters` as written. A changed
   * time separator replaces every ':' and leaves every '-' as it was, whatever date separator
   * was asked for; otherwise every '-' becomes the date separator.
   */
  function CleanPattern(format: DatePatternFormat, dateSeparator: char, timeSeparator: char): (p: string)
    ensures |p| == |format.Pattern()|
    ensures timeSeparator == TIME_SEPARATOR ==> forall i :: 0 <= i < |p| ==>
      p[i] == (if format.Pattern()[i] == DATE_SEPARATOR then dateSeparator else format.Pattern()[i])
    ensures timeSeparator != TIME_SEPARATOR ==> forall i :: 0 <= i < |p| ==>
      p[i] == (if format.Pattern()[i] == TIME_SEPARATOR then timeSeparator else format.Pattern()[i])
  {
    ReplaceCharacters(format.Pattern(), dateSeparator, timeSeparator)
  }

  /**
   * The pattern those overloads would hand over with the corrected helper: every '-' becomes the
   * date separator and every ':' the time separator.
   */
  function CleanPatternIntended(format: DatePatternFormat, dateSeparator: char, timeSeparator: char): (p: string)
    ensures |p| == |format.Pattern()|
    ensures dateSeparator != TIME_SEPARATOR ==> forall i :: 0 <= i < |p| ==>
      p[i] == (if format.Pattern()[i] == DATE_SEPARATOR then dateSeparator
               else if format.Pattern()[i] == TIME_SEPARATOR then timeSeparator
               else format.Pattern()[i])
  {
    if dateSeparator != TIME_SEPARATOR then
      ReplaceSeparatorsReplacesBoth(format.Pattern(), dateSeparator, timeSeparator);
      ReplaceSeparators(format.Pattern(), dateSeparator, timeSeparator)
    else
      ReplaceSeparators(format.Pattern(), dateSeparator, timeSeparator)
  }

  /**
   * Whenever both separators change, each '-' of a named format stays '-' in the pattern handed
   * over, where the corrected helper would put the new date separator.
   */
  lemma CleanPatternLosesDate(format: DatePatternFormat, dateSeparator: char, timeSeparator: char, i: nat)
    requires dateSeparator != DATE_SEPARATOR && dateSeparator != TIME_SEPARATOR
    requires timeSeparator != TIME_SEPARATOR
    requires i < |format.Pattern()| && format.Pattern()[i] == DATE_SEPARATOR
    ensures CleanPattern(format, dateSeparator, timeSeparator)[i] == DATE_SEPARATOR
    ensures CleanPatternIntended(format, dateSeparator, timeSeparator)[i] == dateSeparator
  {
  }

  /** The named formats pass through unchanged with the default separators, as written and corrected. */
  lemma NamedPatternsWithDefaults(format: DatePatternFormat)
    ensures CleanPattern(format, DATE_SEPARATOR, TIME_SEPARATOR) == format.Pattern()
    ensures CleanPatternIntended(format, DATE_SEPARATOR, TIME_SEPARATOR) == format.Pattern()
  {
    DefaultsKeepPattern(format.Pattern());
  }
}
