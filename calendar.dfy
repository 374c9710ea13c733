/** The memorial calendar generator: the fixed solar and lunar occasions of a
    target year, the configured death anniversaries, and the list of event
    files a run produces. The specification functions say what each
    generator yields; the `ChineseMemorialCalendar` class builds the same
    lists step by step, as the generator object does. */
module MemorialCalendar {
  import opened Wrappers
  import opened Gregorian
  import opened Text
  import opened Events
  import opened Resolver
  import opened Anniversaries

  /** An event together with the file name it is saved under. */
  datatype NamedEvent = NamedEvent(fileName: string, event: Event)

  const QingmingTitle := "Qingming Festival 清明节"
  const WinterSolsticeTitle := "Winter Solstice 冬至"
  const GhostMonthTitle := "Ghost Month 鬼月"
  const NewYearsEveTitle := "Chinese New Year's Eve 除夕"

  /** The fixed solar occasions: Qingming on April 5 and the Winter Solstice
      on December 22 of the target year. */
  function SolarEvents(year: int): Result<seq<NamedEvent>, Error> {
    match MakeDateTime(Date(year, 4, 5))
    case Err(e) => Err(e)
    case Ok(qingming) =>
      match MakeDateTime(Date(year, 12, 22))
      case Err(e) => Err(e)
      case Ok(solstice) =>
        Ok([NamedEvent("qingming.ics", CreateEvent(QingmingTitle, qingming)),
            NamedEvent("winter_solstice.ics", CreateEvent(WinterSolsticeTitle, solstice))])
  }

  /** Chinese New Year's Eve: the solar day before lunar 1/1 of the target
      year. */
  function NewYearsEve(convert: LunarConverter, year: int): Result<DateTime, Error> {
    match LunarToSolar(convert, year, 1, 1, Some(year))
    case Err(e) => Err(e)
    case Ok(newYear) => SubtractOneDay(newYear)
  }

  /** The fixed lunar occasions: the Ghost Month, from lunar 7/1 through
      lunar 7/30 of the target year, and Chinese New Year's Eve. */
  function LunarEvents(convert: LunarConverter, year: int): Result<seq<NamedEvent>, Error> {
    match LunarToSolar(convert, year, 7, 1, None)
    case Err(e) => Err(e)
    case Ok(first) =>
      match LunarToSolar(convert, year, 7, 30, None)
      case Err(e) => Err(e)
      case Ok(last) =>
        match CreateMultidayEvent(GhostMonthTitle, first, last)
        case Err(e) => Err(e)
        case Ok(ghostMonth) =>
          match NewYearsEve(convert, year)
          case Err(e) => Err(e)
          case Ok(eve) =>
            Ok([NamedEvent("ghost_month.ics", ghostMonth),
                NamedEvent("chinese_new_year_eve.ics", CreateEvent(NewYearsEveTitle, eve))])
  }

  /** The event of one anniversary: on the solar date of its lunar month and
      day in the target year, titled with its names, saved under a file name
      made from its name. */
  function AnniversaryEvent(convert: LunarConverter, year: int, a: Anniversary): Result<NamedEvent, Error> {
    match LunarToSolar(convert, year, a.lunarMonth, a.lunarDay, None)
    case Err(e) => Err(e)
    case Ok(date) =>
      Ok(NamedEvent(AnniversaryFileName(a.name), CreateEvent(AnniversaryTitle(a.name, a.chineseName), date)))
  }

  /** An anniversary's event exists exactly when the library gives a valid
      solar date for its lunar month and day in the target year; it then
      begins at midnight of that date, carries the anniversary's title, and
      is saved under the file name made from the anniversary's name. */
  lemma AnniversaryEventDate(convert: LunarConverter, year: int, a: Anniversary)
    ensures var s := convert(year, a.lunarMonth, a.lunarDay);
            var r := AnniversaryEvent(convert, year, a);
            && (r.Ok? <==> s.Some? && ValidDate(s.value))
            && (r.Ok? ==> && r.value.fileName == AnniversaryFileName(a.name)
                          && r.value.event.name == AnniversaryTitle(a.name, a.chineseName)
                          && r.value.event.begin.date == s.value
                          && IsMidnight(r.value.event.begin)
                          && r.value.event.end.None?)
  {
  }

  /** The anniversaries' events in record order, or the error of the first
      record whose date cannot be resolved. */
  function AnniversaryEvents(convert: LunarConverter, year: int, anniversaries: seq<Anniversary>)
    : Result<seq<NamedEvent>, Error>
    decreases |anniversaries|
  {
    if anniversaries == [] then Ok([])
    else
      match AnniversaryEvents(convert, year, anniversaries[..|anniversaries| - 1])
      case Err(e) => Err(e)
      case Ok(init) =>
        match AnniversaryEvent(convert, year, anniversaries[|anniversaries| - 1])
        case Err(e) => Err(e)
        case Ok(last) => Ok(init + [last])
  }

  /** Once a prefix of the records fails, the whole list fails with the
      same error. */
  lemma {:induction false} AnniversaryEventsPrefixErr(
    convert: LunarConverter, year: int, anniversaries: seq<Anniversary>, k: int)
    requires 0 <= k <= |anniversaries|
    requires AnniversaryEvents(convert, year, anniversaries[..k]).Err?
    ensures AnniversaryEvents(convert, year, anniversaries) == AnniversaryEvents(convert, year, anniversaries[..k])
    decreases |anniversaries|
  {
    if k == |anniversaries| {
      assert anniversaries[..k] == anniversaries;
    } else {
      var init := anniversaries[..|anniversaries| - 1];
      assert init[..k] == anniversaries[..k];
      AnniversaryEventsPrefixErr(convert, year, init, k);
    }
  }

  /** Everything a run generates: the solar occasions, then the lunar ones,
      then the anniversaries. */
  function AllEvents(convert: LunarConverter, year: int, anniversaries: seq<Anniversary>)
    : Result<seq<NamedEvent>, Error>
  {
    match SolarEvents(year)
    case Err(e) => Err(e)
    case Ok(solar) =>
      match LunarEvents(convert, year)
      case Err(e) => Err(e)
      case Ok(lunar) =>
        match AnniversaryEvents(convert, year, anniversaries)
        case Err(e) => Err(e)
        case Ok(anniversary) => Ok(solar + lunar + anniversary)
  }

  /** `os.path.join(directory, name)` on a POSIX system. */
  function PathJoin(directory: string, name: string): string {
    if name != [] && name[0] == '/' then name
    else if directory == [] || directory[|directory| - 1] == '/' then directory + name
    else directory + "/" + name
  }

  /** A joined path ends with the file name; below a directory name that does
      not end in a separator, a relative file name is joined with one '/'. */
  lemma PathJoinEndsWithName(directory: string, name: string)
    ensures |name| <= |PathJoin(directory, name)|
    ensures PathJoin(directory, name)[|PathJoin(directory, name)| - |name|..] == name
    ensures ((name == [] || name[0] != '/') && directory != [] && directory[|directory| - 1] != '/')
              ==> PathJoin(directory, name) == directory + "/" + name
  {
  }

  /** The path an event is saved to: its file name without commas, in the
      output directory. */
  function SavedPath(directory: string, fileName: string): string {
    PathJoin(directory, RemoveChar(fileName, ','))
  }

  /** The fixed solar occasions fall on April 5 and December 22 of the
      target year; they exist exactly when that year is one `datetime` can
      represent. */
  lemma SolarOccasions(year: int)
    ensures SolarEvents(year).Ok? <==> MinYear <= year <= MaxYear
    ensures SolarEvents(year).Ok? ==>
              var s := SolarEvents(year).value;
              && |s| == 2
              && s[0].fileName == "qingming.ics" && s[0].event.name == QingmingTitle
              && s[0].event.begin.date == Date(year, 4, 5) && IsMidnight(s[0].event.begin)
              && s[1].fileName == "winter_solstice.ics" && s[1].event.name == WinterSolsticeTitle
              && s[1].event.begin.date == Date(year, 12, 22) && IsMidnight(s[1].event.begin)
  {
  }

  /** New Year's Eve is exactly one solar day before lunar 1/1 of the target
      year: stepping one day forward from it gives that date back. When lunar
      New Year falls on January 1 the eve is December 31 of the year before;
      otherwise it lies in the same solar year. */
  lemma NewYearsEveIsDayBefore(convert: LunarConverter, year: int)
    ensures var s := convert(year, 1, 1);
            NewYearsEve(convert, year).Ok? <==> s.Some? && ValidDate(s.value) && s.value != FirstDate
    ensures NewYearsEve(convert, year).Ok? ==>
              var newYear := convert(year, 1, 1).value;
              var eve := NewYearsEve(convert, year).value;
              && ValidDate(eve.date) && IsMidnight(eve)
              && NextDay(eve.date) == Some(newYear)
              && Ordinal(eve.date) + 1 == Ordinal(newYear)
              && (newYear.month == 1 && newYear.day == 1 ==> eve.date == Date(newYear.year - 1, 12, 31))
              && (!(newYear.month == 1 && newYear.day == 1) ==> eve.date.year == newYear.year)
  {
    var s := convert(year, 1, 1);
    if s.Some? && ValidDate(s.value) && s.value != FirstDate {
      NextPrevInverse(s.value);
    }
  }

  /** The Ghost Month runs from the solar date of lunar 7/1 to the day after
      that of lunar 7/30 (exclusive). Lunar 7/30 is asked for as it is; if
      the library has no such day, the error propagates. */
  lemma GhostMonthWindow(convert: LunarConverter, year: int)
    ensures LunarEvents(convert, year).Ok? ==>
              && convert(year, 7, 1).Some? && convert(year, 7, 30).Some?
              && var first := convert(year, 7, 1).value;
                 var last := convert(year, 7, 30).value;
                 var g := LunarEvents(convert, year).value[0];
                 && ValidDate(first) && ValidDate(last)
                 && g.fileName == "ghost_month.ics" && g.event.name == GhostMonthTitle
                 && g.event.begin.date == first && IsMidnight(g.event.begin)
                 && g.event.end.Some? && Some(g.event.end.value.date) == NextDay(last)
                 && IsMidnight(g.event.end.value)
                 && Ordinal(g.event.end.value.date) == Ordinal(last) + 1
                 && (!Before(last, first) ==> Before(first, g.event.end.value.date))
    ensures convert(year, 7, 30).None? ==> LunarEvents(convert, year).Err?
  {
    var a := LunarToSolar(convert, year, 7, 1, None);
    var b := LunarToSolar(convert, year, 7, 30, None);
    if a.Ok? && b.Ok? {
      MultidayWindow(GhostMonthTitle, a.value, b.value);
    }
  }

  /** The lunar occasions are the Ghost Month and then New Year's Eve, the
      latter a single-day event on the eve. */
  lemma LunarOccasions(convert: LunarConverter, year: int)
    ensures LunarEvents(convert, year).Ok? ==>
              var l := LunarEvents(convert, year).value;
              && |l| == 2 && NewYearsEve(convert, year).Ok?
              && l[0].fileName == "ghost_month.ics"
              && l[1].fileName == "chinese_new_year_eve.ics" && l[1].event.name == NewYearsEveTitle
              && l[1].event.begin.date == NewYearsEve(convert, year).value.date
              && IsMidnight(l[1].event.begin) && l[1].event.end.None?
  {
  }

  /** One event per anniversary record, in record order; the list exists
      exactly when every record's event does. */
  lemma {:induction false} AnniversaryEventsPerRecord(convert: LunarConverter, year: int, anniversaries: seq<Anniversary>)
    ensures AnniversaryEvents(convert, year, anniversaries).Ok? <==>
              (forall i :: 0 <= i < |anniversaries| ==> AnniversaryEvent(convert, year, anniversaries[i]).Ok?)
    ensures AnniversaryEvents(convert, year, anniversaries).Ok? ==>
              var es := AnniversaryEvents(convert, year, anniversaries).value;
              && |es| == |anniversaries|
              && forall i :: 0 <= i < |anniversaries| ==>
                   AnniversaryEvent(convert, year, anniversaries[i]) == Ok(es[i])
    decreases |anniversaries|
  {
    if anniversaries != [] {
      var n := |anniversaries| - 1;
      var init := anniversaries[..n];
      AnniversaryEventsPerRecord(convert, year, init);
      var before := AnniversaryEvents(convert, year, init);
      var last := AnniversaryEvent(convert, year, anniversaries[n]);
      if before.Ok? && last.Ok? {
        var es := before.value + [last.value];
        assert AnniversaryEvents(convert, year, anniversaries) == Ok(es);
        forall i | 0 <= i < |anniversaries|
          ensures AnniversaryEvent(convert, year, anniversaries[i]) == Ok(es[i])
        {
          if i < n {
            assert anniversaries[i] == init[i];
          }
        }
      } else if before.Err? {
        var i :| 0 <= i < n && AnniversaryEvent(convert, year, init[i]).Err?;
        assert anniversaries[i] == init[i];
      }
    }
  }

  /** When the list fails, it fails with the error of the first record whose
      event fails. */
  lemma {:induction false} AnniversaryEventsFirstError(convert: LunarConverter, year: int, anniversaries: seq<Anniversary>)
    returns (i: int)
    requires AnniversaryEvents(convert, year, anniversaries).Err?
    ensures 0 <= i < |anniversaries|
    ensures AnniversaryEvent(convert, year, anniversaries[i]) == Err(AnniversaryEvents(convert, year, anniversaries).error)
    ensures forall j :: 0 <= j < i ==> AnniversaryEvent(convert, year, anniversaries[j]).Ok?
    decreases |anniversaries|
  {
    var n := |anniversaries| - 1;
    var init := anniversaries[..n];
    if AnniversaryEvents(convert, year, init).Err? {
      i := AnniversaryEventsFirstError(convert, year, init);
      assert init[i] == anniversaries[i];
      assert forall j :: 0 <= j < i ==> init[j] == anniversaries[j];
    } else {
      i := n;
      AnniversaryEventsPerRecord(convert, year, init);
      assert forall j :: 0 <= j < n ==> init[j] == anniversaries[j];
    }
  }

  /** A run's events are the two solar occasions, the two lunar occasions
      and then one event per anniversary record in record order: 4 plus the
      number of records. */
  lemma RunAssembly(convert: LunarConverter, year: int, anniversaries: seq<Anniversary>)
    ensures AllEvents(convert, year, anniversaries).Ok? <==>
              (SolarEvents(year).Ok? && LunarEvents(convert, year).Ok?
               && AnniversaryEvents(convert, year, anniversaries).Ok?)
    ensures AllEvents(convert, year, anniversaries).Ok? ==>
              var es := AllEvents(convert, year, anniversaries).value;
              && |es| == 4 + |anniversaries|
              && es[..2] == SolarEvents(year).value
              && es[2..4] == LunarEvents(convert, year).value
              && es[0].event.begin.date == Date(year, 4, 5)
              && es[1].event.begin.date == Date(year, 12, 22)
              && es[2].fileName == "ghost_month.ics"
              && es[3].fileName == "chinese_new_year_eve.ics"
              && forall i :: 0 <= i < |anniversaries| ==>
                   AnniversaryEvent(convert, year, anniversaries[i]) == Ok(es[4 + i])
  {
    AnniversaryEventsPerRecord(convert, year, anniversaries);
    if AllEvents(convert, year, anniversaries).Ok? {
      SolarOccasions(year);
      LunarOccasions(convert, year);
    }
  }

  /** The files a successful run writes, in order: the four fixed occasions'
      files, then one "anniversary_<name>.ics" file per record with the name
      lower-cased, spaces turned into underscores and apostrophes and commas
      dropped, each inside the output directory. */
  lemma RunFiles(convert: LunarConverter, year: int, anniversaries: seq<Anniversary>, directory: string)
    ensures AllEvents(convert, year, anniversaries).Ok? ==>
              var es := AllEvents(convert, year, anniversaries).value;
              && |es| == 4 + |anniversaries|
              && SavedPath(directory, es[0].fileName) == PathJoin(directory, "qingming.ics")
              && SavedPath(directory, es[1].fileName) == PathJoin(directory, "winter_solstice.ics")
              && SavedPath(directory, es[2].fileName) == PathJoin(directory, "ghost_month.ics")
              && SavedPath(directory, es[3].fileName) == PathJoin(directory, "chinese_new_year_eve.ics")
              && forall i :: 0 <= i < |anniversaries| ==>
                   && SavedPath(directory, es[4 + i].fileName)
                      == PathJoin(directory, "anniversary_" + SanitizedName(anniversaries[i].name) + ".ics")
                   && Sanitized(RemoveChar(es[4 + i].fileName, ','))
  {
    RunAssembly(convert, year, anniversaries);
    if AllEvents(convert, year, anniversaries).Ok? {
      var es := AllEvents(convert, year, anniversaries).value;
      FixedFileNamesHaveNoComma();
      forall i | 0 <= i < |anniversaries|
        ensures SavedPath(directory, es[4 + i].fileName)
                == PathJoin(directory, "anniversary_" + SanitizedName(anniversaries[i].name) + ".ics")
        ensures Sanitized(RemoveChar(es[4 + i].fileName, ','))
      {
        AnniversaryEventDate(convert, year, anniversaries[i]);
        AnniversaryFileNameShape(anniversaries[i].name);
      }
    }
  }

  /** Saving drops nothing from the fixed occasions' file names. */
  lemma FixedFileNamesHaveNoComma()
    ensures RemoveChar("qingming.ics", ',') == "qingming.ics"
    ensures RemoveChar("winter_solstice.ics", ',') == "winter_solstice.ics"
    ensures RemoveChar("ghost_month.ics", ',') == "ghost_month.ics"
    ensures RemoveChar("chinese_new_year_eve.ics", ',') == "chinese_new_year_eve.ics"
  {
    assert Plain("qingming.ics") && Plain("winter_solstice.ics");
    assert Plain("ghost_month.ics") && Plain("chinese_new_year_eve.ics");
    PlainUnchanged("qingming.ics");
    PlainUnchanged("winter_solstice.ics");
    PlainUnchanged("ghost_month.ics");
    PlainUnchanged("chinese_new_year_eve.ics");
  }

  /** The generator object: a target year, an output directory, the lunar
      library it converts with, and the anniversary records loaded so far. */
  class ChineseMemorialCalendar {
    const year: int
    const outputDir: string
    const convert: LunarConverter
    var anniversaries: seq<Anniversary>

    constructor (year: int, convert: LunarConverter, outputDir: string)
      ensures this.year == year && this.convert == convert && this.outputDir == outputDir
      ensures anniversaries == []
    {
      this.year := year;
      this.convert := convert;
      this.outputDir := outputDir;
      anniversaries := [];
    }

    /** Appends the records of a parsed document's `anniversaries` list
        (`None` when the document is empty or has no such key), skipping
        the entries that lack a required key, and returns the warnings. */
    method LoadAnniversariesConfig(document: Option<seq<Entry>>) returns (warnings: seq<Warning>)
      modifies this
      ensures document.None? ==> anniversaries == old(anniversaries) && warnings == [NoAnniversaries]
      ensures document.Some? ==> && anniversaries == old(anniversaries) + Ingested(document.value)
                                 && warnings == Skipped(document.value)
    {
      if document.None? {
        warnings := [NoAnniversaries];
        return;
      }
      var entries := document.value;
      warnings := [];
      var i := 0;
      while i < |entries|
        invariant 0 <= i <= |entries|
        invariant anniversaries == old(anniversaries) + Ingested(entries[..i])
        invariant warnings == Skipped(entries[..i])
      {
        assert entries[..i + 1][..i] == entries[..i];
        match ParseEntry(entries[i]) {
          case Ok(a) => anniversaries := anniversaries + [a];
          case Err(w) => warnings := warnings + [w];
        }
        i := i + 1;
      }
      assert entries[..i] == entries;
    }

    method GenerateSolarCalendarEvents() returns (r: Result<seq<NamedEvent>, Error>)
      ensures r == SolarEvents(year)
    {
      var events: seq<NamedEvent> := [];
      var qingming := MakeDateTime(Date(year, 4, 5));
      if qingming.Err? {
        return Err(qingming.error);
      }
      var first := NamedEvent("qingming.ics", CreateEvent(QingmingTitle, qingming.value));
      events := events + [first];
      var solstice := MakeDateTime(Date(year, 12, 22));
      if solstice.Err? {
        return Err(solstice.error);
      }
      var second := NamedEvent("winter_solstice.ics", CreateEvent(WinterSolsticeTitle, solstice.value));
      events := events + [second];
      assert events == [first, second];
      return Ok(events);
    }

    method GenerateLunarCalendarEvents() returns (r: Result<seq<NamedEvent>, Error>)
      ensures r == LunarEvents(convert, year)
    {
      var events: seq<NamedEvent> := [];
      var first := LunarToSolar(convert, year, 7, 1, None);
      if first.Err? {
        return Err(first.error);
      }
      var last := LunarToSolar(convert, year, 7, 30, None);
      if last.Err? {
        return Err(last.error);
      }
      var ghostMonth := CreateMultidayEvent(GhostMonthTitle, first.value, last.value);
      if ghostMonth.Err? {
        return Err(ghostMonth.error);
      }
      var ghostEvent := NamedEvent("ghost_month.ics", ghostMonth.value);
      events := events + [ghostEvent];
      var eve := NewYearsEve(convert, year);
      if eve.Err? {
        return Err(eve.error);
      }
      var nye := NamedEvent("chinese_new_year_eve.ics", CreateEvent(NewYearsEveTitle, eve.value));
      events := events + [nye];
      assert events == [ghostEvent, nye];
      return Ok(events);
    }

    method GenerateAnniversaryEvents() returns (r: Result<seq<NamedEvent>, Error>)
      ensures r == AnniversaryEvents(convert, year, anniversaries)
    {
      var events: seq<NamedEvent> := [];
      var i := 0;
      while i < |anniversaries|
        invariant 0 <= i <= |anniversaries|
        invariant AnniversaryEvents(convert, year, anniversaries[..i]) == Ok(events)
      {
        assert anniversaries[..i + 1][..i] == anniversaries[..i];
        var e := AnniversaryEvent(convert, year, anniversaries[i]);
        if e.Err? {
          assert AnniversaryEvents(convert, year, anniversaries[..i + 1]) == Err(e.error);
          AnniversaryEventsPrefixErr(convert, year, anniversaries, i + 1);
          return Err(e.error);
        }
        events := events + [e.value];
        i := i + 1;
      }
      assert anniversaries[..i] == anniversaries;
      return Ok(events);
    }

    /** Saves each event in turn (`_save_event_to_file`) and returns the
        paths written, in order. */
    method SaveEvents(events: seq<NamedEvent>) returns (generatedFiles: seq<string>)
      ensures |generatedFiles| == |events|
      ensures forall k :: 0 <= k < |events| ==> generatedFiles[k] == SavedPath(outputDir, events[k].fileName)
    {
      generatedFiles := [];
      for i := 0 to |events|
        invariant |generatedFiles| == i
        invariant forall k :: 0 <= k < i ==> generatedFiles[k] == SavedPath(outputDir, events[k].fileName)
      {
        generatedFiles := generatedFiles + [SavedPath(outputDir, events[i].fileName)];
      }
    }

    /** Generates every event, then saves them, returning the path each is
        saved to, in order. */
    method GenerateCalendars() returns (r: Result<seq<string>, Error>)
      ensures AllEvents(convert, year, anniversaries).Err? ==> r == Err(AllEvents(convert, year, anniversaries).error)
      ensures AllEvents(convert, year, anniversaries).Ok? ==>
                var es := AllEvents(convert, year, anniversaries).value;
                && r.Ok? && |r.value| == |es|
                && forall i :: 0 <= i < |es| ==> r.value[i] == SavedPath(outputDir, es[i].fileName)
    {
      var solar := GenerateSolarCalendarEvents();
      if solar.Err? {
        assert AllEvents(convert, year, anniversaries) == Err(solar.error);
        return Err(solar.error);
      }
      var lunar := GenerateLunarCalendarEvents();
      if lunar.Err? {
        assert AllEvents(convert, year, anniversaries) == Err(lunar.error);
        return Err(lunar.error);
      }
      var anniversary := GenerateAnniversaryEvents();
      if anniversary.Err? {
        assert AllEvents(convert, year, anniversaries) == Err(anniversary.error);
        return Err(anniversary.error);
      }
      var events := solar.value + lunar.value + anniversary.value;
      assert AllEvents(convert, year, anniversaries) == Ok(events);
      var generatedFiles := SaveEvents(events);
      return Ok(generatedFiles);
    }
  }
}
