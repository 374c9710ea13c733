# Chinese memorial calendar: a verified model

The program builds one calendar-exchange (iCalendar) file per remembrance
date of a target year. It covers these dates:

- Qingming (April 5) and the Winter Solstice (December 22), both fixed solar dates;
- the Ghost Month, the whole 7th lunar month, as a multi-day event;
- Chinese New Year's Eve, the solar day before lunar 1/1;
- death anniversaries read from a configuration document, each on a lunar
  month and day.

This project models the generator's own logic in Dafny:

- the all-day event windows anchored at midnight;
- the one-day steps of Python's `timedelta` arithmetic on proleptic Gregorian dates;
- which year a lunar date is resolved in;
- how configuration entries become anniversary records;
- the titles and sanitised file names of the events;
- the order in which a run assembles and saves its events.

The lunar/solar conversion belongs to an external library with its own
tables. The model takes it as a parameter, `Resolver.LunarConverter`: a
function from (lunar year, month, day) to the solar date the library returns,
or `None` where the library raises because that lunar date does not exist.
Every property below holds for every such function.

Modules:

- `Wrappers`: `Option` and `Result`.
- `Gregorian`: dates in the range `datetime` accepts (years 1 to 9999).
  `Ordinal` is Python's `toordinal`. `NextDay` and `PrevDay` are
  `+ timedelta(days=1)` and `- timedelta(days=1)`, with the `OverflowError`
  at either end of the range.
- `Text`: `str.lower()` and single-character `str.replace`.
- `Events`: `datetime` values, midnight anchoring, and the two event builders.
- `Resolver`: year defaulting and the conversion of the library's answer into a `datetime`.
- `Anniversaries`: configuration entries, ingestion, titles and file names.
- `MemorialCalendar`: the occasion generators, the run assembly, and the
  `ChineseMemorialCalendar` class. The class methods build the event lists
  with loops and appends, as the source does. Each method's `ensures` ties
  its result or new state to a specification function, and lemmas state the
  properties of those functions.

Exceptions that the source lets propagate become `Result` errors:

- `ValueError` from `datetime(...)` becomes `InvalidDate`;
- `OverflowError` from `timedelta` arithmetic becomes `DateOverflow`;
- the library's error for a nonexistent lunar date becomes `LunarDateNotFound`.

The first error in evaluation order is the one reported.

The code does less than its comments and names suggest in a few places, and
the model follows the code:

- The comment at `chinese_memorial_calendar.py:108` calls lunar 7/30 the
  last day of the 7th month. The code asks the library for 7/30 as it is,
  with no fallback to 7/29 in a 29-day month, so the library's error
  propagates (`GhostMonthWindow`).
- The comment at `chinese_memorial_calendar.py:132` speaks of the first day
  of the next lunar year. The code takes lunar 1/1 of the target year
  itself, so New Year's Eve lies in the previous solar year only when that
  lunar 1/1 is January 1 (`NewYearsEveIsDayBefore`).
- `_create_multiday_event` adds no range check of its own between the first
  and the last day (`MultidayWindow`). The event library's own check on
  `end` is not part of this model (see "## Left out").
- A single-day event leaves its end unset. The code never sets it.

## Model

| member | source | states |
|---|---|---|
| Gregorian.NextDay | chinese_memorial_calendar.py:28 | the day after a valid date is again a valid date, and it exists unless the date is 9999-12-31 (where Python overflows) |
| Gregorian.PrevDay | chinese_memorial_calendar.py:133 | the day before a valid date is again a valid date, and it exists unless the date is 0001-01-01 (where Python overflows) |
| Gregorian.NextDayOrdinal | chinese_memorial_calendar.py:28 | adding one day raises the day number by exactly 1 and gives a later date in calendar order |
| Gregorian.PrevDayOrdinal | chinese_memorial_calendar.py:133 | subtracting one day lowers the day number by exactly 1 and gives an earlier date in calendar order |
| Gregorian.NextPrevInverse | chinese_memorial_calendar.py:133 | the one-day steps undo each other: a step forward then back, or back then forward, returns the same date |
| Gregorian.OrdinalOrder | chinese_memorial_calendar.py:26-28 | calendar order of valid dates is the order of their day numbers, and equal day numbers mean equal dates |
| Gregorian.YearStep | chinese_memorial_calendar.py:28 | the day count before year y+1 exceeds that before year y by the length of year y, leap years included |
| Events.Midnight | chinese_memorial_calendar.py:38 | zeroing the time keeps the calendar date and gives midnight |
| Events.MakeDateTime | chinese_memorial_calendar.py:59-60 | constructing a date succeeds exactly for valid dates, giving midnight of that date; otherwise it fails with InvalidDate |
| Events.AddOneDay | chinese_memorial_calendar.py:28 | adding a day keeps the time of day and moves the date one day number forward; it fails with DateOverflow exactly on the last representable date |
| Events.SubtractOneDay | chinese_memorial_calendar.py:133 | subtracting a day keeps the time of day and moves the date one day number back; it fails with DateOverflow exactly on the first representable date |
| Events.CreateEvent | chinese_memorial_calendar.py:33-41 | a single-day event has the given name and begins at midnight of the given calendar date, with the date unchanged and no end set |
| Events.CreateMultidayEvent | chinese_memorial_calendar.py:20-31 | its contract is stated by MultidayWindow: the window begins at midnight of the first day and ends at midnight of the day after the last day. The builder fails with DateOverflow exactly when the last day is 9999-12-31 |
| Events.MultidayWindow | chinese_memorial_calendar.py:20-31 | a multi-day event begins at midnight of the first day. It ends at midnight of the day after the last day, so it is one day longer than the distance between the two days. The end is after the begin exactly when the last day is not before the first. It fails only when the last day is 9999-12-31 |
| Resolver.EffectiveYear | chinese_memorial_calendar.py:56 | a missing year or year 0 falls back to the target year; any other year is used as given |
| Resolver.LunarToSolar | chinese_memorial_calendar.py:48-60 | the result is midnight of the library's solar date for the effective year. It fails with LunarDateNotFound when the library has no such lunar date, and with InvalidDate when the library's answer is not a valid date |
| Resolver.YearDefaulting | chinese_memorial_calendar.py:54-56 | resolving with no year, or with year 0, equals resolving with the target year; resolving with any other year does not depend on the target year |
| Text.LowerChar | chinese_memorial_calendar.py:196 | a lowered character is never an ASCII capital; ASCII capitals map to their lower-case letters and every other character, non-ASCII capitals included, stays the same |
| Text.Lower | chinese_memorial_calendar.py:196 | its contract is stated by LowerAt and LowerAppend: each character lowered in place, piece by piece |
| Text.LowerAt | chinese_memorial_calendar.py:196 | ASCII lowering keeps the length and lowers each character in place |
| Text.ReplaceChar | chinese_memorial_calendar.py:196 | its contract is stated by ReplaceCharAt and ReplaceCharAppend: every occurrence replaced in place, nothing else changed |
| Text.ReplaceCharAt | chinese_memorial_calendar.py:196 | replacing a character keeps the length, turns every occurrence into the replacement and leaves other characters in place |
| Text.RemoveChar | chinese_memorial_calendar.py:69 | its contract is stated by RemoveCharCounts and RemoveCharAppend: every occurrence dropped, the other characters kept with their counts and order |
| Text.RemoveCharCounts | chinese_memorial_calendar.py:69 | removing a character leaves none of it and keeps every other character as often as it occurred |
| Text.RemoveCharAppend | chinese_memorial_calendar.py:69 | removal works piece by piece over a concatenation, so the kept characters keep their order |
| Text.LowerAppend | chinese_memorial_calendar.py:196 | ASCII lowering works piece by piece over a concatenation |
| Text.ReplaceCharAppend | chinese_memorial_calendar.py:196 | replacing works piece by piece over a concatenation |
| Anniversaries.ParseEntry | chinese_memorial_calendar.py:162-170 | an entry becomes a record exactly when it has name, lunar_month and lunar_day. The record copies them, and a missing chinese_name or notes becomes the empty string. Otherwise the warning names the first missing required key in the order name, lunar_month, lunar_day |
| Anniversaries.Ingested | chinese_memorial_calendar.py:160-170 | its contract is stated by IngestedIndices and IngestAppend: the records of exactly the complete entries, in their order |
| Anniversaries.Skipped | chinese_memorial_calendar.py:160-170 | its contract is stated by IngestCount and IngestAppend: one warning per incomplete entry, in entry order |
| Anniversaries.IngestAppend | chinese_memorial_calendar.py:160-170 | ingestion goes entry by entry: the records and warnings of a concatenation are those of its parts, so a skipped entry does not affect the others |
| Anniversaries.IngestCount | chinese_memorial_calendar.py:160-170 | every entry yields exactly one record or one warning |
| Anniversaries.IngestedIndices | chinese_memorial_calendar.py:160-170 | the records are exactly those of the entries having all required keys, in their original order: each record comes from such an entry, the source positions strictly increase, and no complete entry is left out |
| Anniversaries.AnniversaryTitle | chinese_memorial_calendar.py:184-186 | the title is the name when the Chinese name is empty. Otherwise it is the name followed by " (", the Chinese name and ")", and both names can be read back from it |
| Anniversaries.AnniversaryFileName | chinese_memorial_calendar.py:195-196 | its contract is stated by FileNameSplits and AnniversaryFileNameShape: the fixed prefix and suffix around the sanitised name |
| Anniversaries.SanitizedName | chinese_memorial_calendar.py:196 | its contract is stated by SanitizeKeepsSanitized: no space, apostrophe, comma or ASCII capital is left |
| Anniversaries.FileNameSplits | chinese_memorial_calendar.py:195-196 | sanitising the file name leaves the "anniversary_" prefix and ".ics" suffix intact and sanitises the name between them |
| Anniversaries.SanitizeKeepsSanitized | chinese_memorial_calendar.py:196 | a sanitised name holds no space, apostrophe, comma or ASCII capital letter |
| Anniversaries.AnniversaryFileNameShape | chinese_memorial_calendar.py:195-196 | once commas are also dropped, the saved name is "anniversary_" + sanitised name + ".ics" and holds no space, apostrophe, comma or ASCII capital letter |
| Anniversaries.PlainUnchanged | chinese_memorial_calendar.py:196 | a name made only of lower-case letters, '_' and '.' passes through every sanitising step unchanged |
| MemorialCalendar.SolarEvents | chinese_memorial_calendar.py:74-101 | its contract is stated by SolarOccasions: Qingming on April 5 and the Winter Solstice on December 22, existing exactly for years 1 to 9999 |
| MemorialCalendar.SolarOccasions | chinese_memorial_calendar.py:74-101 | the solar occasions are Qingming on April 5 and the Winter Solstice on December 22 of the target year, in that order, each at midnight. They exist exactly when the target year is 1 to 9999 |
| MemorialCalendar.NewYearsEve | chinese_memorial_calendar.py:131-133 | its contract is stated by NewYearsEveIsDayBefore: the day before lunar 1/1 of the target year |
| MemorialCalendar.NewYearsEveIsDayBefore | chinese_memorial_calendar.py:131-133 | New Year's Eve is exactly one day before lunar 1/1 of the target year. If lunar 1/1 is January 1, the eve is December 31 of the year before; otherwise it is in the same solar year. It fails exactly when lunar 1/1 cannot be resolved or is 0001-01-01 |
| MemorialCalendar.GhostMonthWindow | chinese_memorial_calendar.py:107-129 | the Ghost Month begins on the solar date of lunar 7/1 and ends exclusively on the day after that of lunar 7/30. Its end is after its begin whenever 7/30 is not before 7/1. A missing lunar 7/30 makes the lunar occasions fail, with no fallback day |
| MemorialCalendar.LunarEvents | chinese_memorial_calendar.py:103-148 | its contract is stated by GhostMonthWindow and LunarOccasions: the Ghost Month window, then New Year's Eve |
| MemorialCalendar.LunarOccasions | chinese_memorial_calendar.py:103-148 | the lunar occasions are the Ghost Month and then a single-day New Year's Eve event on the eve's date |
| MemorialCalendar.AnniversaryEvent | chinese_memorial_calendar.py:181-197 | its contract is stated by AnniversaryEventDate: midnight of the resolved lunar date, the anniversary title, the name-derived file name |
| MemorialCalendar.AnniversaryEventDate | chinese_memorial_calendar.py:181-197 | an anniversary's event exists exactly when its lunar month and day resolve in the target year. It begins at midnight of that solar date, carries the anniversary title and is saved under the name-derived file name |
| MemorialCalendar.AnniversaryEvents | chinese_memorial_calendar.py:177-199 | its contract is stated by AnniversaryEventsPerRecord and AnniversaryEventsFirstError: one event per record in order, or the first record's error |
| MemorialCalendar.AnniversaryEventsPerRecord | chinese_memorial_calendar.py:181-197 | the anniversary list holds exactly one event per record, in record order, and exists exactly when every record's event does |
| MemorialCalendar.AnniversaryEventsFirstError | chinese_memorial_calendar.py:181-182 | a failing anniversary list fails with the error of the first record that cannot be resolved |
| MemorialCalendar.AnniversaryEventsPrefixErr | chinese_memorial_calendar.py:181-182 | once a prefix of the records fails, the whole list fails with the same error |
| MemorialCalendar.AllEvents | chinese_memorial_calendar.py:206-208 | its contract is stated by RunAssembly: solar, then lunar, then anniversary events, 4 + number of records in all |
| MemorialCalendar.RunAssembly | chinese_memorial_calendar.py:201-212 | a run's events are the two solar occasions, then the two lunar occasions, then one event per record in record order: 4 + number of records in all. The run succeeds exactly when all three generators do |
| MemorialCalendar.RunFiles | chinese_memorial_calendar.py:206-210 | the files a run saves are the four fixed occasion files and then "anniversary_" + sanitised name + ".ics" per record, in order, each joined to the output directory and free of spaces, apostrophes, commas and ASCII capital letters |
| MemorialCalendar.PathJoin | chinese_memorial_calendar.py:69 | its contract is stated by PathJoinEndsWithName: the path ends with the name, joined with one '/' below a directory without a trailing separator |
| MemorialCalendar.SavedPath | chinese_memorial_calendar.py:69 | its contract is stated by RunFiles: the comma-free file name joined to the output directory |
| MemorialCalendar.PathJoinEndsWithName | chinese_memorial_calendar.py:69 | a saved path ends with the file name, and below a directory not ending in '/' a relative name is joined with one '/' |
| MemorialCalendar.FixedFileNamesHaveNoComma | chinese_memorial_calendar.py:69 | dropping commas leaves the four fixed occasion file names unchanged |
| MemorialCalendar.ChineseMemorialCalendar.constructor | chinese_memorial_calendar.py:11-15 | a new calendar keeps the target year, the converter and the output directory, and has no anniversaries |
| MemorialCalendar.ChineseMemorialCalendar.LoadAnniversariesConfig | chinese_memorial_calendar.py:150-170 | a document without anniversaries leaves the records unchanged and warns once. Otherwise the records of the complete entries are appended in order after those already loaded, and each skipped entry yields one warning |
| MemorialCalendar.ChineseMemorialCalendar.GenerateSolarCalendarEvents | chinese_memorial_calendar.py:74-101 | the list built by appends equals the solar occasions |
| MemorialCalendar.ChineseMemorialCalendar.GenerateLunarCalendarEvents | chinese_memorial_calendar.py:103-148 | the list built by appends equals the lunar occasions, including their failure |
| MemorialCalendar.ChineseMemorialCalendar.GenerateAnniversaryEvents | chinese_memorial_calendar.py:177-199 | the loop yields one event per loaded record in order, or the error of the first record that cannot be resolved |
| MemorialCalendar.ChineseMemorialCalendar.SaveEvents | chinese_memorial_calendar.py:209-210 | one saved path per event, in order: the event's file name without commas, joined to the output directory |
| MemorialCalendar.ChineseMemorialCalendar.GenerateCalendars | chinese_memorial_calendar.py:201-212 | a run either fails with the first generator error before anything is saved, or returns one saved path per event of the run, in order |

## Left out

- The lunar/solar conversion (`Converter.Lunar2Solar`). It is a foreign
  library with hidden tables, so it is the parameter `Resolver.LunarConverter`.
  `_solar_to_lunar` is never called by the generator and is not modelled.
- `ics.Event` and `ics.Calendar` construction and serialisation, including
  whatever `make_all_day()` does to begin and end. `Events.Event` holds the
  values the code assigns.
- The event description texts. They are constant or formatted free text
  with no behaviour.
- File and directory I/O: creating the output directory, writing each file,
  printing. `SaveEvents` returns the path each event would be written to.
- YAML parsing and the file-not-found and parse-error paths of
  `load_anniversaries_config`. The parsed document is the parameter of
  `LoadAnniversariesConfig` (`None` for an empty document or one without the
  `anniversaries` key).
- Entries whose values have other types than modelled (a non-string name,
  a `null` chinese_name or notes, an `anniversaries` value that is not a
  list). An entry is a record of optional string and integer fields.
- The local time zone captured at start-up. It is the same for every date of
  a run, so it is not represented.
- Command-line parsing and `main`.
- Text.LowerChar: lowers ASCII capitals only. Anniversary names come from
  the user's configuration, and Python's `str.lower()` also lowers other
  capitals: for a name "Émile" Python writes `anniversary_émile.ics`, and the
  model keeps the `É`.
- Text.LowerAt: keeping the length holds for ASCII lowering only. Python's
  `str.lower()` can lengthen a string (`'İ'` becomes two code points).
- Text.LowerAppend: piecewise lowering holds for ASCII lowering only.
  Python's `str.lower()` lowers a final capital sigma depending on its
  neighbours.
- Events.CreateMultidayEvent: the `ics` library's own validation when `end`
  is assigned is not modelled, and neither is `make_all_day()`. That library
  rejects an end before the begin, so a last day two or more days before the
  first day raises there. The model returns such an event with its end not
  after its begin.
- MemorialCalendar.PathJoin: models `os.path.join` on POSIX only. Windows
  joining (drive letters, `\` separators) is not modelled.
