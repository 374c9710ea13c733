/** The lunar-to-solar date resolver. The conversion itself belongs to an
    external lunar calendar library with its own tables; it is a parameter
    here. What this module fixes is everything around it: which year is
    asked for, and how the library's answer becomes a `datetime`. */
module Resolver {
  import opened Wrappers
  import opened Gregorian
  import opened Events

  /** The library's `Converter.Lunar2Solar(Lunar(year, month, day))`: the
      solar (year, month, day) it returns, or `None` where it raises because
      that lunar date does not exist. */
  type LunarConverter = (int, int, int) -> Option<Date>

  /** `year or self.year`: an omitted year, or year 0 (which Python treats
      as false), falls back to the calendar's target year. */
  function EffectiveYear(year: Option<int>, target: int): (y: int)
    ensures (year.None? || year == Some(0)) ==> y == target
    ensures (year.Some? && year.value != 0) ==> y == year.value
  {
    if year.None? || year.value == 0 then target else year.value
  }

  /** `_lunar_to_solar(month, day, year)` for a calendar whose target year
      is `target`: the solar date the library gives for the effective year,
      at midnight. */
  function LunarToSolar(convert: LunarConverter, target: int, month: int, day: int, year: Option<int>)
    : (r: Result<DateTime, Error>)
    ensures var s := convert(EffectiveYear(year, target), month, day);
            && (r.Ok? <==> s.Some? && ValidDate(s.value))
            && (r.Ok? ==> r.value.date == s.value && IsMidnight(r.value))
            && (s.None? ==> r == Err(LunarDateNotFound))
            && (s.Some? && !ValidDate(s.value) ==> r == Err(InvalidDate))
  {
    match convert(EffectiveYear(year, target), month, day)
    case None => Err(LunarDateNotFound)
    case Some(s) => MakeDateTime(s)
  }

  /** Omitting the year, or passing 0, is the same as passing the target
      year; any other year is used as given, whatever the target year is. */
  lemma YearDefaulting(convert: LunarConverter, target: int, month: int, day: int)
    ensures LunarToSolar(convert, target, month, day, None) == LunarToSolar(convert, target, month, day, Some(target))
    ensures LunarToSolar(convert, target, month, day, Some(0)) == LunarToSolar(convert, target, month, day, Some(target))
    ensures forall y, other :: y != 0 ==>
              LunarToSolar(convert, target, month, day, Some(y)) == LunarToSolar(convert, other, month, day, Some(y))
  {
  }
}
