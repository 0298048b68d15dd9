/**
 * The calculations of src/lib/utils.ts: article normalisation, the hours a
 * welder produced on a day, the overtime pool that turns raw hours into
 * normal and overtime hours, and the recomputation of plan progress.
 */
module Utils {
  import opened Types
  import opened Seqs

  function Max(a: real, b: real): real { if a >= b then a else b }

  function Min(a: real, b: real): real { if a <= b then a else b }

  // ---------------------------------------------------------------------------
  // String normalisers
  // ---------------------------------------------------------------------------

  /** The characters of the `\s` class of JavaScript regular expressions, which are also what `trim` strips. */
  predicate IsWhitespace(c: char) {
    || c == ' '
    || ('\t' <= c <= '\r')
    || c == '\U{00A0}' || c == '\U{1680}'
    || ('\U{2000}' <= c <= '\U{200A}')
    || c == '\U{2028}' || c == '\U{2029}' || c == '\U{202F}'
    || c == '\U{205F}' || c == '\U{3000}' || c == '\U{FEFF}'
  }

  predicate IsLower(c: char) { 'a' <= c <= 'z' }

  /** `toUpperCase` on one character, for the ASCII letters. */
  function UpperChar(c: char): (u: char)
    ensures !IsLower(u)
    ensures IsWhitespace(u) == IsWhitespace(c)
    ensures !IsLower(c) ==> u == c
    ensures IsLower(c) ==> 'A' <= u <= 'Z' && u as int == c as int - 32
  {
    if IsLower(c) then (c as int - 32) as char else c
  }

  /** `s.toUpperCase()`: every character mapped by UpperChar. */
  function ToUpper(s: string): (r: string)
    ensures |r| == |s|
    ensures forall i :: 0 <= i < |s| ==> r[i] == UpperChar(s[i])
  {
    if s == [] then [] else [UpperChar(s[0])] + ToUpper(s[1..])
  }

  /** `s.replace(/\s+/g, '')`: every whitespace character removed, the rest kept in order. */
  function RemoveWhitespace(s: string): (r: string)
    ensures forall c :: c in r <==> c in s && !IsWhitespace(c)
  {
    var keep := (c: char) => !IsWhitespace(c);
    FilterMembers(s, keep);
    Filter(s, keep)
  }

  /** normalizeArticle: the article code without whitespace, upper-cased. */
  function NormalizeArticle(input: string): (r: string)
    ensures forall i :: 0 <= i < |r| ==> !IsWhitespace(r[i]) && !IsLower(r[i])
  {
    ToUpper(RemoveWhitespace(input))
  }

  lemma RemoveWhitespaceConcat(a: string, b: string)
    ensures RemoveWhitespace(a + b) == RemoveWhitespace(a) + RemoveWhitespace(b)
  {
    FilterConcat(a, b, (c: char) => !IsWhitespace(c));
  }

  lemma ToUpperConcat(a: string, b: string)
    ensures ToUpper(a + b) == ToUpper(a) + ToUpper(b)
  {
  }

  /** Normalisation works piece by piece: it distributes over concatenation. */
  lemma NormalizeArticleConcat(a: string, b: string)
    ensures NormalizeArticle(a + b) == NormalizeArticle(a) + NormalizeArticle(b)
  {
    RemoveWhitespaceConcat(a, b);
    ToUpperConcat(RemoveWhitespace(a), RemoveWhitespace(b));
  }

  /** Whitespace anywhere in an article code makes no difference. */
  lemma NormalizeArticleIgnoresWhitespace(a: string, c: char, b: string)
    requires IsWhitespace(c)
    ensures NormalizeArticle(a + [c] + b) == NormalizeArticle(a + b)
  {
    NormalizeArticleConcat(a + [c], b);
    NormalizeArticleConcat(a, [c]);
    NormalizeArticleConcat(a, b);
  }

  /** A code without whitespace or lower-case letters is already normal. */
  lemma {:induction false} NormalizeArticleFixes(s: string)
    requires forall i :: 0 <= i < |s| ==> !IsWhitespace(s[i]) && !IsLower(s[i])
    ensures NormalizeArticle(s) == s
  {
    if s != [] {
      NormalizeArticleFixes(s[1..]);
      assert s == [s[0]] + s[1..];
      NormalizeArticleConcat([s[0]], s[1..]);
    }
  }

  /** A single character normalises to nothing when it is whitespace and to its upper-case form otherwise. */
  lemma NormalizeArticleChar(c: char)
    ensures NormalizeArticle([c]) == if IsWhitespace(c) then [] else [UpperChar(c)]
  {
    assert [c][1..] == [];
  }

  /** A non-whitespace first character is upper-cased in front of the normalised rest. */
  lemma NormalizeArticleCons(s: string)
    requires s != [] && !IsWhitespace(s[0])
    ensures NormalizeArticle(s) == [UpperChar(s[0])] + NormalizeArticle(s[1..])
  {
    assert s == [s[0]] + s[1..];
    NormalizeArticleConcat([s[0]], s[1..]);
    NormalizeArticleChar(s[0]);
  }

  /** A code without whitespace is upper-cased character by character, keeping its length. */
  lemma {:induction false} NormalizeArticleNoWhitespace(s: string)
    requires forall i :: 0 <= i < |s| ==> !IsWhitespace(s[i])
    ensures |NormalizeArticle(s)| == |s|
    ensures forall i :: 0 <= i < |s| ==> NormalizeArticle(s)[i] == UpperChar(s[i])
  {
    if s != [] {
      var rest := NormalizeArticle(s[1..]);
      NormalizeArticleNoWhitespace(s[1..]);
      NormalizeArticleCons(s);
      forall i | 1 <= i < |s| ensures NormalizeArticle(s)[i] == UpperChar(s[i]) {
        assert rest[i - 1] == UpperChar(s[1..][i - 1]);
      }
    }
  }

  lemma NormalizeArticleIdempotent(s: string)
    ensures NormalizeArticle(NormalizeArticle(s)) == NormalizeArticle(s)
  {
    NormalizeArticleFixes(NormalizeArticle(s));
  }

  /** Where `trim` starts: the index of the first non-whitespace character at or after `from`, or `|s|`. */
  function TrimStartIndex(s: string, from: nat): (k: nat)
    requires from <= |s|
    ensures from <= k <= |s|
    ensures k < |s| ==> !IsWhitespace(s[k])
    ensures forall i :: from <= i < k ==> IsWhitespace(s[i])
    decreases |s| - from
  {
    if from < |s| && IsWhitespace(s[from]) then TrimStartIndex(s, from + 1) else from
  }

  /** Where `trim` ends: the index just past the last non-whitespace character of `s[lo..hi]`, or `lo`. */
  function TrimEndIndex(s: string, lo: nat, hi: nat): (k: nat)
    requires lo <= hi <= |s|
    ensures lo <= k <= hi
    ensures k > lo ==> !IsWhitespace(s[k - 1])
    ensures forall i :: k <= i < hi ==> IsWhitespace(s[i])
    decreases hi
  {
    if lo < hi && IsWhitespace(s[hi - 1]) then TrimEndIndex(s, lo, hi - 1) else hi
  }

  /** `s.trim()`: whitespace removed from both ends. */
  function Trim(s: string): (r: string)
    ensures |r| <= |s|
    ensures r != [] ==> !IsWhitespace(r[0]) && !IsWhitespace(r[|r| - 1])
    ensures r == [] <==> forall i :: 0 <= i < |s| ==> IsWhitespace(s[i])
  {
    var lo := TrimStartIndex(s, 0);
    s[lo..TrimEndIndex(s, lo, |s|)]
  }

  /** Trimming keeps a contiguous piece `s[k..k + |Trim(s)|]` of the string and drops only whitespace around it. */
  lemma TrimSlice(s: string) returns (k: nat)
    ensures k + |Trim(s)| <= |s| && Trim(s) == s[k..k + |Trim(s)|]
    ensures forall i :: 0 <= i < k ==> IsWhitespace(s[i])
    ensures forall i :: k + |Trim(s)| <= i < |s| ==> IsWhitespace(s[i])
  {
    k := TrimStartIndex(s, 0);
    var hi := TrimEndIndex(s, k, |s|);
    assert Trim(s) == s[k..hi];
  }

  /** capitalizeFirst: the trimmed string with its first letter upper-cased. */
  function CapitalizeFirst(str: string): (r: string)
    ensures |r| == |Trim(str)|
    ensures r == [] <==> forall i :: 0 <= i < |str| ==> IsWhitespace(str[i])
    ensures r != [] ==> !IsLower(r[0]) && !IsWhitespace(r[0]) && !IsWhitespace(r[|r| - 1])
    ensures r != [] ==> r[0] == UpperChar(Trim(str)[0]) && r[1..] == Trim(str)[1..]
  {
    var trimmed := Trim(str);
    if trimmed == [] then trimmed
    else [UpperChar(trimmed[0])] + trimmed[1..]
  }

  lemma TrimOfTrimmed(s: string)
    requires s == [] || (!IsWhitespace(s[0]) && !IsWhitespace(s[|s| - 1]))
    ensures Trim(s) == s
  {
  }

  lemma CapitalizeFirstIdempotent(s: string)
    ensures CapitalizeFirst(CapitalizeFirst(s)) == CapitalizeFirst(s)
  {
    var r := CapitalizeFirst(s);
    TrimOfTrimmed(r);
  }

  // ---------------------------------------------------------------------------
  // Hours of one day
  // ---------------------------------------------------------------------------

  /** `rates.find((r) => r.article === article)`: the first rate for the article, if any. */
  function FindRate(rates: seq<Rate>, article: string): (r: Option<Rate>)
    ensures r.None? <==> forall i :: 0 <= i < |rates| ==> rates[i].article != article
    ensures r.Some? ==> r.value in rates && r.value.article == article
  {
    if rates == [] then None
    else if rates[0].article == article then Some(rates[0])
    else FindRate(rates[1..], article)
  }

  /** Of several rates for one article, the first in the table is the one used. */
  lemma {:induction false} FindRateFirst(rates: seq<Rate>, article: string, i: nat)
    requires i < |rates| && rates[i].article == article
    requires forall j :: 0 <= j < i ==> rates[j].article != article
    ensures FindRate(rates, article) == Some(rates[i])
  {
    if i > 0 {
      FindRateFirst(rates[1..], article, i - 1);
    }
  }

  /** What one entry contributes to its day: norm times quantity, or nothing when its article has no rate. */
  function EntryHours(entry: WCEntry, rates: seq<Rate>): real {
    match FindRate(rates, entry.article)
    case Some(rate) => rate.norm * entry.quantity
    case None => 0.0
  }

  /** `entries.filter((e) => e.date === date)`: the entries of one day. */
  function OnDate(entries: seq<WCEntry>, date: Date): seq<WCEntry> {
    Filter(entries, (e: WCEntry) => e.date == date)
  }

  /** Hours of a list of entries, summed from the left. */
  function SumHours(entries: seq<WCEntry>, rates: seq<Rate>): real {
    if entries == [] then 0.0
    else SumHours(entries[..|entries| - 1], rates) + EntryHours(entries[|entries| - 1], rates)
  }

  /** The raw hours a welder produced on `date`: the value calcDayHours returns. */
  function DayHours(entries: seq<WCEntry>, rates: seq<Rate>, date: Date): real {
    SumHours(OnDate(entries, date), rates)
  }

  /** Extending a prefix by one entry adds that entry's hours. */
  lemma SumHoursPrefix(entries: seq<WCEntry>, rates: seq<Rate>, i: nat)
    requires i < |entries|
    ensures SumHours(entries[..i + 1], rates) == SumHours(entries[..i], rates) + EntryHours(entries[i], rates)
  {
    assert entries[..i + 1][..i] == entries[..i];
  }

  /** calcDayHours: filter the day's entries, then add up their hours. */
  method CalcDayHours(entries: seq<WCEntry>, rates: seq<Rate>, date: Date) returns (totalHours: real)
    ensures totalHours == DayHours(entries, rates, date)
  {
    var dayEntries := OnDate(entries, date);
    totalHours := 0.0;
    for i := 0 to |dayEntries|
      invariant totalHours == SumHours(dayEntries[..i], rates)
    {
      var rate := FindRate(rates, dayEntries[i].article);
      SumHoursPrefix(dayEntries, rates, i);
      if rate.Some? {
        totalHours := totalHours + rate.value.norm * dayEntries[i].quantity;
      }
    }
    assert dayEntries[..|dayEntries|] == dayEntries;
  }

  lemma {:induction false} SumHoursConcat(a: seq<WCEntry>, b: seq<WCEntry>, rates: seq<Rate>)
    ensures SumHours(a + b, rates) == SumHours(a, rates) + SumHours(b, rates)
    decreases |b|
  {
    if b == [] {
      assert a + b == a;
    } else {
      assert (a + b)[..|a + b| - 1] == a + b[..|b| - 1];
      SumHoursConcat(a, b[..|b| - 1], rates);
    }
  }

  /** The day's hours of a longer list are the hours of its parts added together. */
  lemma DayHoursConcat(a: seq<WCEntry>, b: seq<WCEntry>, rates: seq<Rate>, date: Date)
    ensures DayHours(a + b, rates, date) == DayHours(a, rates, date) + DayHours(b, rates, date)
  {
    FilterConcat(a, b, (e: WCEntry) => e.date == date);
    SumHoursConcat(OnDate(a, date), OnDate(b, date), rates);
  }

  /** One more entry adds norm times quantity of its article's first rate when it is on the day, and nothing otherwise. */
  lemma DayHoursAppend(entries: seq<WCEntry>, e: WCEntry, rates: seq<Rate>, date: Date)
    ensures DayHours(entries + [e], rates, date)
         == DayHours(entries, rates, date)
            + (if e.date == date && FindRate(rates, e.article).Some?
               then FindRate(rates, e.article).value.norm * e.quantity else 0.0)
  {
    DayHoursConcat(entries, [e], rates, date);
    assert OnDate([e], date) == if e.date == date then [e] else [];
    assert SumHours([e], rates) == EntryHours(e, rates) by {
      assert [e][..0] == [];
    }
  }

  /** An entry on another day, or of an article without a rate, leaves the day's hours alone wherever it sits. */
  lemma DayHoursIgnores(a: seq<WCEntry>, e: WCEntry, b: seq<WCEntry>, rates: seq<Rate>, date: Date)
    requires e.date != date || FindRate(rates, e.article).None?
    ensures DayHours(a + [e] + b, rates, date) == DayHours(a + b, rates, date)
  {
    DayHoursAppend(a, e, rates, date);
    DayHoursConcat(a + [e], b, rates, date);
    DayHoursConcat(a, b, rates, date);
  }

  lemma {:induction false} SumHoursNonNegative(entries: seq<WCEntry>, rates: seq<Rate>)
    requires forall i :: 0 <= i < |rates| ==> rates[i].norm >= 0.0
    requires forall i :: 0 <= i < |entries| ==> entries[i].quantity >= 0.0
    ensures SumHours(entries, rates) >= 0.0
    decreases |entries|
  {
    if entries != [] {
      SumHoursNonNegative(entries[..|entries| - 1], rates);
      var e := entries[|entries| - 1];
      var rate := FindRate(rates, e.article);
      if rate.Some? {
        var k :| 0 <= k < |rates| && rates[k] == rate.value;
      }
    }
  }

  /** With non-negative norms and quantities a day never has negative hours. */
  lemma DayHoursNonNegative(entries: seq<WCEntry>, rates: seq<Rate>, date: Date)
    requires forall i :: 0 <= i < |rates| ==> rates[i].norm >= 0.0
    requires forall i :: 0 <= i < |entries| ==> entries[i].quantity >= 0.0
    ensures DayHours(entries, rates, date) >= 0.0
  {
    var day := OnDate(entries, date);
    FilterMembers(entries, (e: WCEntry) => e.date == date);
    forall i | 0 <= i < |day| ensures day[i].quantity >= 0.0 {
      assert day[i] in day;
      var k :| 0 <= k < |entries| && entries[k] == day[i];
    }
    SumHoursNonNegative(day, rates);
  }

  /** calcOvertime: the hours above an 8-hour day. */
  function CalcOvertime(entries: seq<WCEntry>, rates: seq<Rate>, date: Date): (r: real)
    ensures r >= 0.0
    ensures r == 0.0 <==> DayHours(entries, rates, date) <= 8.0
    ensures r > 0.0 ==> DayHours(entries, rates, date) == 8.0 + r
  {
    Max(0.0, DayHours(entries, rates, date) - 8.0)
  }

  // ---------------------------------------------------------------------------
  // The overtime pool
  // ---------------------------------------------------------------------------

  /** What is shown for one day. */
  datatype DayStat = DayStat(normalHours: real, overtimeHours: real)

  /** The outcome of one day of the fold: the day's figures and the pool carried forward. */
  datatype Step = Step(stat: DayStat, pool: real)

  /** `overtimeByDate[date]`: present or absent, whatever the stored value (a stored 0 is present). */
  function Stored(overtimeByDate: map<Date, real>, date: Date): Option<real> {
    if date in overtimeByDate then Some(overtimeByDate[date]) else None
  }

  /**
   * One day of calcDayStats. A day of 8 hours or more shows 8 normal hours and
   * banks the stored overtime (or, with nothing stored, the hours above 8); a
   * shorter day takes from the pool what it needs to reach 8 hours.
   */
  function DayStep(raw: real, stored: Option<real>, pool: real): (s: Step)
    ensures raw >= 8.0 ==>
      && s.stat.normalHours == 8.0
      && (stored.Some? ==> s.stat.overtimeHours == stored.value)
      && (stored.None? ==> s.stat.overtimeHours == raw - 8.0)
      && s.pool - pool == s.stat.overtimeHours
    ensures raw < 8.0 ==>
      && s.stat.overtimeHours == 0.0
      && s.stat.normalHours <= 8.0
      && pool - s.pool == s.stat.normalHours - raw
      && (pool >= 0.0 ==> raw <= s.stat.normalHours && s.pool >= 0.0)
      && (pool < 0.0 ==> s.stat.normalHours == raw + pool && s.pool == 0.0)
      && (s.stat.normalHours < 8.0 ==> s.pool == 0.0)
      && (s.pool > 0.0 ==> s.stat.normalHours == 8.0)
  {
    var savedOvertime := match stored case Some(v) => v case None => Max(0.0, raw - 8.0);
    if raw >= 8.0 then
      Step(DayStat(8.0, savedOvertime), pool + savedOvertime)
    else
      var deficit := 8.0 - raw;
      var fromPool := Min(pool, deficit);
      Step(DayStat(raw + fromPool, 0.0), pool - fromPool)
  }

  /** The figures shown so far, keyed by date, and the pool after the last date. */
  datatype Replay = Replay(stats: map<Date, DayStat>, pool: real)

  /** calcDayStats as a left-to-right fold over the dates, starting from an empty pool. */
  function DayStats(entries: seq<WCEntry>, rates: seq<Rate>, overtimeByDate: map<Date, real>, dates: seq<Date>): Replay
  {
    if dates == [] then Replay(map[], 0.0)
    else
      var prev := DayStats(entries, rates, overtimeByDate, dates[..|dates| - 1]);
      var date := dates[|dates| - 1];
      var s := DayStep(DayHours(entries, rates, date), Stored(overtimeByDate, date), prev.pool);
      Replay(prev.stats[date := s.stat], s.pool)
  }

  /** The pool as it stands when the fold reaches `dates[i]`. */
  function PoolBefore(entries: seq<WCEntry>, rates: seq<Rate>, overtimeByDate: map<Date, real>, dates: seq<Date>, i: nat): real
    requires i <= |dates|
  {
    DayStats(entries, rates, overtimeByDate, dates[..i]).pool
  }

  /** The step the fold takes at `dates[i]`. */
  function StepAt(entries: seq<WCEntry>, rates: seq<Rate>, overtimeByDate: map<Date, real>, dates: seq<Date>, i: nat): Step
    requires i < |dates|
  {
    DayStep(DayHours(entries, rates, dates[i]), Stored(overtimeByDate, dates[i]),
            PoolBefore(entries, rates, overtimeByDate, dates, i))
  }

  /** One more date extends the fold by that date's step, taken with the pool the earlier dates left. */
  lemma DayStatsPrefix(entries: seq<WCEntry>, rates: seq<Rate>, overtimeByDate: map<Date, real>, dates: seq<Date>, i: nat)
    requires i < |dates|
    ensures var prev := DayStats(entries, rates, overtimeByDate, dates[..i]);
      var s := DayStep(DayHours(entries, rates, dates[i]), Stored(overtimeByDate, dates[i]), prev.pool);
      DayStats(entries, rates, overtimeByDate, dates[..i + 1]) == Replay(prev.stats[dates[i] := s.stat], s.pool)
  {
    assert dates[..i + 1][..i] == dates[..i];
  }

  /** calcDayStats: one pass over the sorted dates with a running pool, recording each day's figures. */
  method CalcDayStats(entries: seq<WCEntry>, rates: seq<Rate>, overtimeByDate: map<Date, real>, sortedDates: seq<Date>)
    returns (result: map<Date, DayStat>)
    ensures result == DayStats(entries, rates, overtimeByDate, sortedDates).stats
  {
    result := map[];
    var pool := 0.0;
    for i := 0 to |sortedDates|
      invariant Replay(result, pool) == DayStats(entries, rates, overtimeByDate, sortedDates[..i])
    {
      var date := sortedDates[i];
      var raw := CalcDayHours(entries, rates, date);
      DayStatsPrefix(entries, rates, overtimeByDate, sortedDates, i);
      var savedOvertime := if date in overtimeByDate then overtimeByDate[date] else Max(0.0, raw - 8.0);
      if raw >= 8.0 {
        pool := pool + savedOvertime;
        result := result[date := DayStat(8.0, savedOvertime)];
      } else {
        var deficit := 8.0 - raw;
        var fromPool := Min(pool, deficit);
        pool := pool - fromPool;
        result := result[date := DayStat(raw + fromPool, 0.0)];
      }
    }
    assert sortedDates[..|sortedDates|] == sortedDates;
  }

  /** Every date of the input gets exactly one entry in the result, and no other key appears. */
  lemma {:induction false} DayStatsKeys(entries: seq<WCEntry>, rates: seq<Rate>, overtimeByDate: map<Date, real>, dates: seq<Date>)
    ensures DayStats(entries, rates, overtimeByDate, dates).stats.Keys == set d | d in dates
    decreases |dates|
  {
    if dates != [] {
      var prefix := dates[..|dates| - 1];
      DayStatsKeys(entries, rates, overtimeByDate, prefix);
      assert dates == prefix + [dates[|dates| - 1]];
    }
  }

  predicate Distinct(dates: seq<Date>) {
    forall i, j :: 0 <= i < j < |dates| ==> dates[i] != dates[j]
  }

  /** For distinct dates, the figures kept for `dates[i]` are those of the fold's step at position i. */
  lemma {:induction false} DayStatsAt(entries: seq<WCEntry>, rates: seq<Rate>, overtimeByDate: map<Date, real>, dates: seq<Date>, i: nat)
    requires Distinct(dates)
    requires i < |dates|
    ensures dates[i] in DayStats(entries, rates, overtimeByDate, dates).stats
    ensures DayStats(entries, rates, overtimeByDate, dates).stats[dates[i]]
         == StepAt(entries, rates, overtimeByDate, dates, i).stat
    decreases |dates|
  {
    var n := |dates|;
    var prefix := dates[..n - 1];
    if i < n - 1 {
      assert prefix[..i] == dates[..i];
      DayStatsAt(entries, rates, overtimeByDate, prefix, i);
      assert dates[n - 1] != dates[i];
    } else {
      assert dates[..i] == prefix;
    }
  }

  /** The pool after a date is the pool before it plus what that date banked minus what it drew. */
  lemma PoolAfterStep(entries: seq<WCEntry>, rates: seq<Rate>, overtimeByDate: map<Date, real>, dates: seq<Date>, i: nat)
    requires i < |dates|
    ensures PoolBefore(entries, rates, overtimeByDate, dates, i + 1)
         == StepAt(entries, rates, overtimeByDate, dates, i).pool
  {
    assert dates[..i + 1][..i] == dates[..i];
  }

  /** Total overtime banked on days of 8 hours or more. */
  function Banked(entries: seq<WCEntry>, rates: seq<Rate>, overtimeByDate: map<Date, real>, dates: seq<Date>): real
  {
    if dates == [] then 0.0
    else
      var n := |dates| - 1;
      var raw := DayHours(entries, rates, dates[n]);
      Banked(entries, rates, overtimeByDate, dates[..n])
        + (if raw >= 8.0 then StepAt(entries, rates, overtimeByDate, dates, n).stat.overtimeHours else 0.0)
  }

  /** Total hours drawn from the pool on days of less than 8 hours. */
  function Drawn(entries: seq<WCEntry>, rates: seq<Rate>, overtimeByDate: map<Date, real>, dates: seq<Date>): real
  {
    if dates == [] then 0.0
    else
      var n := |dates| - 1;
      var raw := DayHours(entries, rates, dates[n]);
      Drawn(entries, rates, overtimeByDate, dates[..n])
        + (if raw < 8.0 then StepAt(entries, rates, overtimeByDate, dates, n).stat.normalHours - raw else 0.0)
  }

  /** Nothing enters or leaves the pool except by banking and drawing: the final pool is banked minus drawn. */
  lemma {:induction false} PoolConservation(entries: seq<WCEntry>, rates: seq<Rate>, overtimeByDate: map<Date, real>, dates: seq<Date>)
    ensures DayStats(entries, rates, overtimeByDate, dates).pool
         == Banked(entries, rates, overtimeByDate, dates) - Drawn(entries, rates, overtimeByDate, dates)
    decreases |dates|
  {
    if dates != [] {
      var n := |dates| - 1;
      PoolConservation(entries, rates, overtimeByDate, dates[..n]);
      PoolAfterStep(entries, rates, overtimeByDate, dates, n);
      assert dates[..n + 1] == dates;
    }
  }

  predicate NonNegativeOvertime(overtimeByDate: map<Date, real>) {
    forall d :: d in overtimeByDate ==> overtimeByDate[d] >= 0.0
  }

  /** With no negative stored overtime, the pool is never negative. */
  lemma {:induction false} PoolNonNegative(entries: seq<WCEntry>, rates: seq<Rate>, overtimeByDate: map<Date, real>, dates: seq<Date>)
    requires NonNegativeOvertime(overtimeByDate)
    ensures DayStats(entries, rates, overtimeByDate, dates).pool >= 0.0
    decreases |dates|
  {
    if dates != [] {
      PoolNonNegative(entries, rates, overtimeByDate, dates[..|dates| - 1]);
    }
  }

  /** Every day shows at most 8 normal hours, and, with no negative stored overtime, no negative overtime. */
  lemma {:induction false} DayStatsBounds(entries: seq<WCEntry>, rates: seq<Rate>, overtimeByDate: map<Date, real>, dates: seq<Date>)
    ensures forall d :: d in DayStats(entries, rates, overtimeByDate, dates).stats ==>
      DayStats(entries, rates, overtimeByDate, dates).stats[d].normalHours <= 8.0
    ensures NonNegativeOvertime(overtimeByDate) ==>
      forall d :: d in DayStats(entries, rates, overtimeByDate, dates).stats ==>
        DayStats(entries, rates, overtimeByDate, dates).stats[d].overtimeHours >= 0.0
    decreases |dates|
  {
    if dates != [] {
      DayStatsBounds(entries, rates, overtimeByDate, dates[..|dates| - 1]);
    }
  }

  /** On a date with no stored value the overtime shown is calcOvertime's, whatever the pool holds. */
  lemma {:induction false} DayStatsUnstoredOvertime(entries: seq<WCEntry>, rates: seq<Rate>, overtimeByDate: map<Date, real>, dates: seq<Date>, date: Date)
    requires date in dates && date !in overtimeByDate
    ensures date in DayStats(entries, rates, overtimeByDate, dates).stats
    ensures DayStats(entries, rates, overtimeByDate, dates).stats[date].overtimeHours == CalcOvertime(entries, rates, date)
    decreases |dates|
  {
    var n := |dates| - 1;
    if dates[n] != date {
      assert date in dates[..n] by {
        var i :| 0 <= i < |dates| && dates[i] == date;
        assert dates[..n][i] == date;
      }
      DayStatsUnstoredOvertime(entries, rates, overtimeByDate, dates[..n], date);
    }
  }

  /**
   * A worked trace: 10 hours on the first day bank 2 hours; an empty second
   * day draws those 2 hours and shows 2 normal hours; the pool is then empty.
   */
  lemma PoolScenario()
    ensures var rates := [Rate("r", "A", 1.0)];
            var entries := [WCEntry("e", "A", 10.0, "2024-01-08", 0)];
            var replay := DayStats(entries, rates, map[], ["2024-01-08", "2024-01-09"]);
            && replay.stats["2024-01-08"] == DayStat(8.0, 2.0)
            && replay.stats["2024-01-09"] == DayStat(2.0, 0.0)
            && replay.pool == 0.0
  {
    var rates := [Rate("r", "A", 1.0)];
    var e := WCEntry("e", "A", 10.0, "2024-01-08", 0);
    var d1: Date, d2: Date := "2024-01-08", "2024-01-09";
    var dates: seq<Date> := [d1, d2];
    assert d1 != d2 by {
      assert d1[9] != d2[9];
    }
    assert FindRate(rates, "A") == Some(rates[0]);
    assert DayHours([e], rates, d1) == 10.0 by {
      DayHoursAppend([], e, rates, d1);
      assert [] + [e] == [e];
      assert OnDate([], d1) == [];
    }
    assert DayHours([e], rates, d2) == 0.0 by {
      DayHoursAppend([], e, rates, d2);
      assert [] + [e] == [e];
      assert OnDate([], d2) == [];
    }
    var first := DayStats([e], rates, map[], dates[..1]);
    assert first == Replay(map[d1 := DayStat(8.0, 2.0)], 2.0) by {
      assert dates[..0] == [];
      DayStatsPrefix([e], rates, map[], dates, 0);
      assert Stored(map[], d1) == None;
      assert DayStep(10.0, None, 0.0) == Step(DayStat(8.0, 2.0), 2.0);
    }
    assert Stored(map[], d2) == None;
    assert DayStep(0.0, None, 2.0) == Step(DayStat(2.0, 0.0), 0.0);
    assert dates[..2] == dates;
    DayStatsPrefix([e], rates, map[], dates, 1);
  }

  // ---------------------------------------------------------------------------
  // Plan progress
  // ---------------------------------------------------------------------------

  /** Units of `article` in a list of entries, summed from the left. */
  function ArticleQuantity(article: string, entries: seq<WCEntry>): real {
    if entries == [] then 0.0
    else
      var e := entries[|entries| - 1];
      ArticleQuantity(article, entries[..|entries| - 1]) + (if e.article == article then e.quantity else 0.0)
  }

  /** Units of `article` over every welder's entries, welder by welder. */
  function Completed(article: string, welders: seq<Welder>): real {
    if welders == [] then 0.0
    else Completed(article, welders[..|welders| - 1]) + ArticleQuantity(article, welders[|welders| - 1].entries)
  }

  /** One plan item with `completed` and `locked` recomputed from the welders' entries. */
  function RecalcItem(item: PlanItem, welders: seq<Welder>): PlanItem {
    var completed := Completed(item.article, welders);
    item.(completed := completed, locked := completed >= item.target)
  }

  /** recalcPlanCompleted, item by item. */
  function Recalc(planItems: seq<PlanItem>, welders: seq<Welder>): (r: seq<PlanItem>)
    ensures |r| == |planItems|
    ensures forall i :: 0 <= i < |r| ==> r[i] == RecalcItem(planItems[i], welders)
  {
    if planItems == [] then []
    else [RecalcItem(planItems[0], welders)] + Recalc(planItems[1..], welders)
  }

  /** recalcPlanCompleted: for each item, scan every welder's entries and total those of the item's article. */
  method RecalcPlanCompleted(planItems: seq<PlanItem>, allWelders: seq<Welder>) returns (r: seq<PlanItem>)
    ensures |r| == |planItems|
    ensures forall i :: 0 <= i < |r| ==>
      && r[i].id == planItems[i].id
      && r[i].article == planItems[i].article
      && r[i].target == planItems[i].target
      && r[i].startDate == planItems[i].startDate
      && r[i].completedDate == planItems[i].completedDate
      && r[i].completed == Completed(planItems[i].article, allWelders)
      && r[i].locked == (r[i].completed >= r[i].target)
    ensures r == Recalc(planItems, allWelders)
  {
    r := [];
    for k := 0 to |planItems|
      invariant |r| == k
      invariant forall j :: 0 <= j < k ==> r[j] == RecalcItem(planItems[j], allWelders)
    {
      var item := planItems[k];
      var completed := 0.0;
      for w := 0 to |allWelders|
        invariant completed == Completed(item.article, allWelders[..w])
      {
        var entries := allWelders[w].entries;
        for e := 0 to |entries|
          invariant completed == Completed(item.article, allWelders[..w]) + ArticleQuantity(item.article, entries[..e])
        {
          if entries[e].article == item.article {
            completed := completed + entries[e].quantity;
          }
          assert entries[..e + 1][..e] == entries[..e];
        }
        assert entries[..|entries|] == entries;
        assert allWelders[..w + 1][..w] == allWelders[..w];
      }
      assert allWelders[..|allWelders|] == allWelders;
      r := r + [item.(completed := completed, locked := completed >= item.target)];
    }
  }

  /** All entries of all welders, in order. */
  function AllEntries(welders: seq<Welder>): seq<WCEntry> {
    if welders == [] then []
    else AllEntries(welders[..|welders| - 1]) + welders[|welders| - 1].entries
  }

  lemma {:induction false} ArticleQuantityConcat(article: string, a: seq<WCEntry>, b: seq<WCEntry>)
    ensures ArticleQuantity(article, a + b) == ArticleQuantity(article, a) + ArticleQuantity(article, b)
    decreases |b|
  {
    if b == [] {
      assert a + b == a;
    } else {
      assert (a + b)[..|a + b| - 1] == a + b[..|b| - 1];
      ArticleQuantityConcat(article, a, b[..|b| - 1]);
    }
  }

  /** `completed` is the quantity of the article over all entries, whichever welder made them. */
  lemma {:induction false} CompletedIsTotalOverEntries(article: string, welders: seq<Welder>)
    ensures Completed(article, welders) == ArticleQuantity(article, AllEntries(welders))
    decreases |welders|
  {
    if welders != [] {
      var n := |welders| - 1;
      CompletedIsTotalOverEntries(article, welders[..n]);
      ArticleQuantityConcat(article, AllEntries(welders[..n]), welders[n].entries);
    }
  }

  /** Entries of other articles do not count towards an item. */
  lemma ArticleQuantityIgnores(article: string, a: seq<WCEntry>, e: WCEntry, b: seq<WCEntry>)
    requires e.article != article
    ensures ArticleQuantity(article, a + [e] + b) == ArticleQuantity(article, a + b)
  {
    ArticleQuantityConcat(article, a + [e], b);
    ArticleQuantityConcat(article, a, [e]);
    ArticleQuantityConcat(article, a, b);
    assert [e][..0] == [];
  }

  /** Recomputing an already recomputed plan changes nothing. */
  lemma RecalcIdempotent(planItems: seq<PlanItem>, welders: seq<Welder>)
    ensures Recalc(Recalc(planItems, welders), welders) == Recalc(planItems, welders)
  {
  }
}
