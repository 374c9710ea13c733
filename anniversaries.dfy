/** Death anniversaries: the records read from the configuration document,
    and the title and file name each one's event gets. */
module Anniversaries {
  import opened Wrappers
  import opened Text

  /** One entry of the document's `anniversaries` list, as a mapping whose
      keys may be present or absent. */
  datatype Entry = Entry(
    name: Option<string>,
    chineseName: Option<string>,
    lunarMonth: Option<int>,
    lunarDay: Option<int>,
    notes: Option<string>)

  /** A loaded anniversary: all five fields, optional ones defaulted. */
  datatype Anniversary = Anniversary(
    name: string,
    chineseName: string,
    lunarMonth: int,
    lunarDay: int,
    notes: string)

  /** The warnings ingestion reports: a document without anniversaries, or
      an entry lacking a required key (the `KeyError` raised for it). */
  datatype Warning = NoAnniversaries | MissingField(key: string)

  predicate HasRequiredKeys(e: Entry) {
    e.name.Some? && e.lunarMonth.Some? && e.lunarDay.Some?
  }

  /** The record one entry becomes, or the `KeyError` for the first missing
      required key, in the order the record's fields are read: `name`,
      `lunar_month`, `lunar_day`. */
  function ParseEntry(e: Entry): (r: Result<Anniversary, Warning>)
    ensures r.Ok? <==> HasRequiredKeys(e)
    ensures r.Ok? ==> && r.value.name == e.name.value
                      && r.value.lunarMonth == e.lunarMonth.value
                      && r.value.lunarDay == e.lunarDay.value
                      && r.value.chineseName == (if e.chineseName.Some? then e.chineseName.value else "")
                      && r.value.notes == (if e.notes.Some? then e.notes.value else "")
    ensures e.name.None? ==> r == Err(MissingField("name"))
    ensures e.name.Some? && e.lunarMonth.None? ==> r == Err(MissingField("lunar_month"))
    ensures e.name.Some? && e.lunarMonth.Some? && e.lunarDay.None? ==> r == Err(MissingField("lunar_day"))
  {
    if e.name.None? then Err(MissingField("name"))
    else if e.lunarMonth.None? then Err(MissingField("lunar_month"))
    else if e.lunarDay.None? then Err(MissingField("lunar_day"))
    else Ok(Anniversary(e.name.value, e.chineseName.GetOr(""), e.lunarMonth.value, e.lunarDay.value, e.notes.GetOr("")))
  }

  /** The records a list of entries yields, in order. */
  function Ingested(entries: seq<Entry>): seq<Anniversary>
    decreases |entries|
  {
    if entries == [] then []
    else
      var init := Ingested(entries[..|entries| - 1]);
      match ParseEntry(entries[|entries| - 1])
      case Ok(a) => init + [a]
      case Err(_) => init
  }

  /** The warnings a list of entries yields, in order. */
  function Skipped(entries: seq<Entry>): seq<Warning>
    decreases |entries|
  {
    if entries == [] then []
    else
      var init := Skipped(entries[..|entries| - 1]);
      match ParseEntry(entries[|entries| - 1])
      case Ok(_) => init
      case Err(w) => init + [w]
  }

  /** Ingestion is entry by entry: a skipped entry does not affect what the
      entries before or after it yield. */
  lemma {:induction false} IngestAppend(a: seq<Entry>, b: seq<Entry>)
    ensures Ingested(a + b) == Ingested(a) + Ingested(b)
    ensures Skipped(a + b) == Skipped(a) + Skipped(b)
    decreases |b|
  {
    if b == [] {
      assert a + b == a;
    } else {
      var b' := b[..|b| - 1];
      assert (a + b)[..|a + b| - 1] == a + b';
      assert (a + b)[|a + b| - 1] == b[|b| - 1];
      IngestAppend(a, b');
    }
  }

  /** Every entry yields either one record or one warning. */
  lemma {:induction false} IngestCount(entries: seq<Entry>)
    ensures |Ingested(entries)| + |Skipped(entries)| == |entries|
    decreases |entries|
  {
    if entries != [] {
      IngestCount(entries[..|entries| - 1]);
    }
  }

  /** Ingestion keeps exactly the entries that have every required key, in
      their original order: record k comes from entry idx[k], the indices
      increase, and every complete entry is among them. */
  lemma {:induction false} IngestedIndices(entries: seq<Entry>) returns (idx: seq<int>)
    ensures |idx| == |Ingested(entries)|
    ensures forall k :: 0 <= k < |idx| ==>
              0 <= idx[k] < |entries| && ParseEntry(entries[idx[k]]) == Ok(Ingested(entries)[k])
    ensures forall k, l :: 0 <= k < l < |idx| ==> idx[k] < idx[l]
    ensures forall j :: 0 <= j < |entries| && HasRequiredKeys(entries[j]) ==> j in idx
    decreases |entries|
  {
    if entries == [] {
      idx := [];
    } else {
      var n := |entries| - 1;
      var init := entries[..n];
      var prev := IngestedIndices(init);
      if HasRequiredKeys(entries[n]) {
        idx := prev + [n];
        assert Ingested(entries) == Ingested(init) + [ParseEntry(entries[n]).value];
      } else {
        idx := prev;
      }
      forall j | 0 <= j < |entries| && HasRequiredKeys(entries[j]) ensures j in idx {
        if j < n {
          assert entries[j] == init[j];
        }
      }
    }
  }

  /** The event title: the name, followed by the Chinese name in
      parentheses when there is one. Both can be read back from it. */
  function AnniversaryTitle(name: string, chineseName: string): (r: string)
    ensures chineseName == "" ==> r == name
    ensures chineseName != "" ==> && |r| == |name| + |chineseName| + 3
                                  && r[..|name|] == name
                                  && r[|name|..|name| + 2] == " ("
                                  && r[|name| + 2..|r| - 1] == chineseName
                                  && r[|r| - 1] == ')'
  {
    if chineseName == "" then name else name + " (" + chineseName + ")"
  }

  /** No character a file name may not hold: no space, apostrophe, comma or
      ASCII capital. */
  predicate Sanitized(s: string) {
    forall i :: 0 <= i < |s| ==> s[i] != ' ' && s[i] != '\'' && s[i] != ',' && !IsUpper(s[i])
  }

  /** The file name generated for an anniversary: from its name (not its
      title), lower-cased, spaces turned into underscores, apostrophes
      dropped. */
  function AnniversaryFileName(name: string): string {
    RemoveChar(ReplaceChar(Lower("anniversary_" + name + ".ics"), ' ', '_'), '\'')
  }

  /** The name part of that file name after the commas are dropped as well. */
  function SanitizedName(name: string): string {
    RemoveChar(RemoveChar(ReplaceChar(Lower(name), ' ', '_'), '\''), ',')
  }

  /** No sanitised name holds a space, an apostrophe, a comma or an ASCII
      capital. */
  lemma SanitizeKeepsSanitized(s: string)
    ensures Sanitized(SanitizedName(s))
  {
    var r0 := Lower(s);
    var r1 := ReplaceChar(r0, ' ', '_');
    var r2 := RemoveChar(r1, '\'');
    var r3 := RemoveChar(r2, ',');
    LowerAt(s);
    ReplaceCharAt(r0, ' ', '_');
    RemoveCharCounts(r1, '\'');
    RemoveCharCounts(r2, ',');
    forall i | 0 <= i < |r3| ensures r3[i] != ' ' && r3[i] != '\'' && r3[i] != ',' && !IsUpper(r3[i]) {
      assert r3[i] in multiset(r3);
      assert r3[i] in multiset(r2);
      assert r3[i] in multiset(r1);
      var j :| 0 <= j < |r1| && r1[j] == r3[i];
      assert r1[j] == if r0[j] == ' ' then '_' else r0[j];
    }
  }

  lemma SanitizedAppend(a: string, b: string)
    requires Sanitized(a) && Sanitized(b)
    ensures Sanitized(a + b)
  {
    forall i | 0 <= i < |a + b| ensures (a + b)[i] != ' ' && (a + b)[i] != '\'' && (a + b)[i] != ',' && !IsUpper((a + b)[i]) {
      if i >= |a| {
        assert (a + b)[i] == b[i - |a|];
      }
    }
  }

  /** The characters a file name may keep unchanged through every step. */
  predicate Plain(s: string) {
    forall i :: 0 <= i < |s| ==> 'a' <= s[i] <= 'z' || s[i] == '_' || s[i] == '.'
  }

  /** A plain string passes through every sanitising step unchanged. */
  lemma PlainUnchanged(s: string)
    requires Plain(s)
    ensures Sanitized(s)
    ensures Lower(s) == s && ReplaceChar(s, ' ', '_') == s
    ensures RemoveChar(s, '\'') == s && RemoveChar(s, ',') == s
  {
    LowerAt(s);
    ReplaceCharAt(s, ' ', '_');
    RemoveCharAbsent(s, '\'');
    RemoveCharAbsent(s, ',');
  }

  lemma AffixesPlain()
    ensures Plain("anniversary_") && Plain(".ics")
  {
  }

  /** Each step of the sanitising works on the prefix, the name and the
      suffix separately. */
  lemma FileNameSplits(name: string)
    ensures AnniversaryFileName(name)
         == "anniversary_" + RemoveChar(ReplaceChar(Lower(name), ' ', '_'), '\'') + ".ics"
  {
    var pre, post := "anniversary_", ".ics";
    AffixesPlain();
    PlainUnchanged(pre);
    PlainUnchanged(post);
    LowerAppend(pre + name, post);
    LowerAppend(pre, name);
    var low := Lower(name);
    ReplaceCharAppend(pre + low, post, ' ', '_');
    ReplaceCharAppend(pre, low, ' ', '_');
    var rep := ReplaceChar(low, ' ', '_');
    RemoveCharAppend(pre + rep, post, '\'');
    RemoveCharAppend(pre, rep, '\'');
  }

  /** With the commas also dropped (as saving does), an anniversary's file
      name is "anniversary_", the sanitised name and ".ics", in that order,
      and holds no space, apostrophe, comma or ASCII capital. */
  lemma AnniversaryFileNameShape(name: string)
    ensures RemoveChar(AnniversaryFileName(name), ',') == "anniversary_" + SanitizedName(name) + ".ics"
    ensures Sanitized(RemoveChar(AnniversaryFileName(name), ','))
  {
    var pre, post := "anniversary_", ".ics";
    AffixesPlain();
    PlainUnchanged(pre);
    PlainUnchanged(post);
    FileNameSplits(name);
    var noApos := RemoveChar(ReplaceChar(Lower(name), ' ', '_'), '\'');
    RemoveCharAppend(pre + noApos, post, ',');
    RemoveCharAppend(pre, noApos, ',');
    SanitizeKeepsSanitized(name);
    SanitizedAppend(pre, SanitizedName(name));
    SanitizedAppend(pre + SanitizedName(name), post);
  }
}
