/**
 * The command-line value parsers: `parse_tags` for `--tags` and
 * `parse_date` for `--date`.
 */
module Validation {
  import opened Wrappers
  import opened Text
  import opened Calendar

  /** The message of a rejected date (the `time` crate's own wording is not modelled). */
  const InvalidDate: string := "invalid date"

  /** `parse_date`: trim, then the strict `[year]-[month]-[day]` format. */
  function ParseDate(s: string): (r: Result<Date, string>)
    ensures r.Ok? ==> ValidDate(r.value)
    ensures r.Err? ==> r.error == InvalidDate
  {
    match ParseDateText(Trim(s))
    case Some(d) => Ok(d)
    case None => Err(InvalidDate)
  }

  /**
   * `parse_date` accepts `s` as `d` exactly when `d` is a real calendar date
   * and `s`, trimmed, spells it: four-digit year (an optional sign before
   * it), two-digit month, two-digit day, dashes between, nothing else.
   */
  lemma ParseDateIff(s: string, d: Date)
    ensures ParseDate(s) == Ok(d) <==> ValidDate(d) && SpellsDate(Trim(s), d)
  {
    ParseDateTextIff(Trim(s), d);
  }

  /** Anything longer or shorter than a signed or unsigned `YYYY-MM-DD` is rejected, a time suffix included. */
  lemma ParseDateRejectsLength(s: string)
    requires |Trim(s)| != 10 && |Trim(s)| != 11
    ensures ParseDate(s).Err?
  {
    if ParseDate(s).Ok? {
      ParseDateTextSound(Trim(s), ParseDate(s).value);
    }
  }

  /**
   * An accepted input is, after trimming and an optional sign, exactly
   * `DDDD-DD-DD`: other separators, day-first order and unpadded fields are
   * all rejected.
   */
  lemma ParseDateShape(s: string)
    requires ParseDate(s).Ok?
    ensures var (_, b) := SignSplit(Trim(s)); |b| == 10 && DateShaped(b)
  {
  }

  /** The calendar checks the parser's tests exercise: month 0 and 13, day 0, 30 February, 29 February by leap year. */
  lemma CalendarExamples()
    ensures !ValidDate(Date(2025, 2, 30)) && !ValidDate(Date(2023, 2, 29)) && ValidDate(Date(2024, 2, 29))
    ensures !ValidDate(Date(2025, 13, 1)) && !ValidDate(Date(2025, 0, 10)) && !ValidDate(Date(2025, 1, 0))
    ensures ValidDate(Date(2025, 9, 2)) && ValidDate(Date(2000, 2, 29)) && !ValidDate(Date(1900, 2, 29))
  {
  }

  /** `parse_tags`: never fails; the trimmed, non-empty comma-separated pieces. */
  function ParseTags(raw: string): (r: Result<seq<string>, string>)
    ensures r.Ok?
    ensures forall i :: 0 <= i < |r.value| ==> IsTag(r.value[i])
  {
    Ok(SplitTags(raw))
  }

  /** Tags written out comma-separated parse back to the same tags, same order and case. */
  lemma ParseTagsOfJoin(tags: seq<string>)
    requires forall i :: 0 <= i < |tags| ==> IsTag(tags[i])
    ensures ParseTags(Join(tags, ',')) == Ok(tags)
  {
    SplitTagsOfJoin(tags);
  }

  /** No tags come out exactly when the input is only commas and whitespace (the empty string included). */
  lemma ParseTagsEmptyIff(raw: string)
    ensures ParseTags(raw) == Ok([]) <==> OnlyCommasAndBlanks(raw)
  {
    SplitTagsEmptyIff(raw);
  }
}
