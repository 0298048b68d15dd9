/**
 * The data rules of src/lib/stores.ts: the guard that keeps the welders
 * subscriber from rewriting an unchanged plan, and the merge policy of
 * `importData` for rates, plan items and welders.
 */
module Stores {
  import opened Types
  import opened Seqs
  import opened Utils

  // ---------------------------------------------------------------------------
  // The welders subscriber and its change guard
  // ---------------------------------------------------------------------------

  /** The two derived fields the guard compares. */
  predicate Differs(item: PlanItem, previous: PlanItem) {
    item.completed != previous.completed || item.locked != previous.locked
  }

  /** The `changed` test: some item differs from the one at the same index in `completed` or `locked`. */
  function Changed(updated: seq<PlanItem>, plan: seq<PlanItem>): (r: bool)
    requires |updated| <= |plan|
    ensures r <==> exists i :: 0 <= i < |updated| && Differs(updated[i], plan[i])
  {
    if updated == [] then false
    else
      var rest := Changed(updated[1..], plan[1..]);
      assert forall i :: 1 <= i < |updated| ==> updated[1..][i - 1] == updated[i] && plan[1..][i - 1] == plan[i];
      Differs(updated[0], plan[0]) || rest
  }

  /**
   * What the welders subscriber does to the plan store when the welders
   * change: `Some(updated)` when it calls `set`, `None` when it leaves the
   * store as it is.
   */
  function OnWeldersChanged(plan: seq<PlanItem>, welders: seq<Welder>): (r: Option<seq<PlanItem>>)
    ensures r.Some? ==> r.value == Recalc(plan, welders)
    ensures r.Some? <==> exists i :: 0 <= i < |plan| && Differs(Recalc(plan, welders)[i], plan[i])
  {
    if |plan| > 0 then
      var updated := Recalc(plan, welders);
      if Changed(updated, plan) then Some(updated) else None
    else None
  }

  /** The plan store once the subscriber has run. */
  function PlanAfterNotify(plan: seq<PlanItem>, welders: seq<Welder>): seq<PlanItem> {
    match OnWeldersChanged(plan, welders)
    case Some(updated) => updated
    case None => plan
  }

  /** Skipping the write loses nothing: either way the store holds the recomputed plan. */
  lemma NotifyKeepsPlanCurrent(plan: seq<PlanItem>, welders: seq<Welder>)
    ensures PlanAfterNotify(plan, welders) == Recalc(plan, welders)
  {
    if OnWeldersChanged(plan, welders).None? {
      var updated := Recalc(plan, welders);
      forall i | 0 <= i < |plan| ensures updated[i] == plan[i] {
        assert !Differs(updated[i], plan[i]);
      }
    }
  }

  /** Once the store holds the recomputed plan, the next notification writes nothing: the guard ends the loop. */
  lemma NotifySettles(plan: seq<PlanItem>, welders: seq<Welder>)
    ensures OnWeldersChanged(Recalc(plan, welders), welders).None?
  {
    RecalcIdempotent(plan, welders);
  }

  // ---------------------------------------------------------------------------
  // Merging rates and plan items
  // ---------------------------------------------------------------------------

  /** The articles that occur in a list of rates or plan items. */
  function Articles<T>(xs: seq<T>, article: T -> string): set<string> {
    set i | 0 <= i < |xs| :: article(xs[i])
  }

  /** The filter of an import: accept only what carries an article not yet taken. */
  function IsNew<T>(taken: set<string>, article: T -> string): T -> bool {
    (x: T) => article(x) !in taken
  }

  /** The imported elements whose article does not occur in `existing`, in import order. */
  function NewByArticle<T>(existing: seq<T>, imported: seq<T>, article: T -> string): seq<T> {
    Filter(imported, IsNew(Articles(existing, article), article))
  }

  /** `[...existing, ...newOnes]`: what the rate merge and the plan merge both compute. */
  function AppendNew<T>(existing: seq<T>, imported: seq<T>, article: T -> string): (r: seq<T>)
    ensures |r| >= |existing| && r[..|existing|] == existing
    ensures r[|existing|..] == NewByArticle(existing, imported, article)
  {
    existing + NewByArticle(existing, imported, article)
  }

  /** The elements appended by a merge are exactly the imported ones with an article the existing list lacks. */
  lemma NewByArticleMembers<T>(existing: seq<T>, imported: seq<T>, article: T -> string)
    ensures forall x :: x in NewByArticle(existing, imported, article) <==>
      x in imported && forall j :: 0 <= j < |existing| ==> article(existing[j]) != article(x)
  {
    FilterMembers(imported, IsNew(Articles(existing, article), article));
  }

  /** The appended part follows the import piece by piece, so it keeps the import's order. */
  lemma NewByArticleConcat<T>(existing: seq<T>, a: seq<T>, b: seq<T>, article: T -> string)
    ensures NewByArticle(existing, a + b, article) == NewByArticle(existing, a, article) + NewByArticle(existing, b, article)
  {
    FilterConcat(a, b, IsNew(Articles(existing, article), article));
  }

  function RateArticle(r: Rate): string { r.article }

  function PlanArticle(p: PlanItem): string { p.article }

  /** The rate merge of importData: existing rates first, then the imported rates of new articles. */
  function MergeRates(existing: seq<Rate>, imported: seq<Rate>): (r: seq<Rate>)
    ensures |r| >= |existing| && r[..|existing|] == existing
    ensures forall x :: x in r[|existing|..] <==>
      x in imported && forall j :: 0 <= j < |existing| ==> existing[j].article != x.article
  {
    NewByArticleMembers(existing, imported, RateArticle);
    AppendNew(existing, imported, RateArticle)
  }

  /** The plan merge of importData: the same rule; an imported item whose article exists is dropped whatever its other fields. */
  function MergePlan(existing: seq<PlanItem>, imported: seq<PlanItem>): (r: seq<PlanItem>)
    ensures |r| >= |existing| && r[..|existing|] == existing
    ensures forall p :: p in r[|existing|..] <==>
      p in imported && forall j :: 0 <= j < |existing| ==> existing[j].article != p.article
  {
    NewByArticleMembers(existing, imported, PlanArticle);
    AppendNew(existing, imported, PlanArticle)
  }

  /** A second merge of the same import appends nothing: every imported article is taken by then. */
  lemma AppendNewIdempotent<T>(existing: seq<T>, imported: seq<T>, article: T -> string)
    ensures AppendNew(AppendNew(existing, imported, article), imported, article) == AppendNew(existing, imported, article)
  {
    var once := AppendNew(existing, imported, article);
    var taken := Articles(once, article);
    NewByArticleMembers(existing, imported, article);
    forall i | 0 <= i < |imported| ensures !IsNew(taken, article)(imported[i]) {
      var x := imported[i];
      if x in once[|existing|..] {
        var m :| 0 <= m < |once[|existing|..]| && once[|existing|..][m] == x;
        assert once[|existing| + m] == x;
        assert article(once[|existing| + m]) in taken;
      } else {
        var j :| 0 <= j < |existing| && article(existing[j]) == article(x);
        assert once[j] == existing[j];
        assert article(once[j]) in taken;
      }
    }
    FilterNoneKept(imported, IsNew(taken, article));
    assert once + [] == once;
  }

  /** Importing the same rates twice adds nothing the second time. */
  lemma MergeRatesIdempotent(existing: seq<Rate>, imported: seq<Rate>)
    ensures MergeRates(MergeRates(existing, imported), imported) == MergeRates(existing, imported)
  {
    AppendNewIdempotent(existing, imported, RateArticle);
  }

  /** Importing the same plan items twice adds nothing the second time. */
  lemma MergePlanIdempotent(existing: seq<PlanItem>, imported: seq<PlanItem>)
    ensures MergePlan(MergePlan(existing, imported), imported) == MergePlan(existing, imported)
  {
    AppendNewIdempotent(existing, imported, PlanArticle);
  }

  /** Two imported rates for one new article are both appended: the rate merge checks only against the existing table. */
  lemma MergeRatesKeepsDuplicateImports()
    ensures var a := Rate("r1", "A", 1.0);
            var b := Rate("r2", "A", 2.0);
            MergeRates([], [a, b]) == [a, b] && FindRate([a, b], "A") == Some(a)
  {
    var a := Rate("r1", "A", 1.0);
    var b := Rate("r2", "A", 2.0);
    FilterKeepsAll([a, b], IsNew(Articles([], RateArticle), RateArticle));
  }

  // ---------------------------------------------------------------------------
  // Merging welders
  // ---------------------------------------------------------------------------

  /** `result.findIndex((w) => w.lastName === lastName)`, searching from `from`. */
  function FindWelderFrom(welders: seq<Welder>, lastName: string, from: nat): (k: int)
    requires from <= |welders|
    ensures k == -1 || from <= k < |welders|
    ensures k >= 0 ==> welders[k].lastName == lastName && forall j :: from <= j < k ==> welders[j].lastName != lastName
    ensures k == -1 ==> forall j :: from <= j < |welders| ==> welders[j].lastName != lastName
    decreases |welders| - from
  {
    if from == |welders| then -1
    else if welders[from].lastName == lastName then from
    else FindWelderFrom(welders, lastName, from + 1)
  }

  /** `result.findIndex((w) => w.lastName === lastName)`: the first welder with that surname, or -1. */
  function FindWelder(welders: seq<Welder>, lastName: string): (k: int)
    ensures k == -1 || 0 <= k < |welders|
    ensures k >= 0 ==> welders[k].lastName == lastName && forall j :: 0 <= j < k ==> welders[j].lastName != lastName
    ensures k == -1 <==> forall j :: 0 <= j < |welders| ==> welders[j].lastName != lastName
  {
    FindWelderFrom(welders, lastName, 0)
  }

  function EntryIds(entries: seq<WCEntry>): set<string> {
    set i | 0 <= i < |entries| :: entries[i].id
  }

  /** The imported entries whose id the current record does not have, in import order. */
  function NewEntries(current: seq<WCEntry>, imported: seq<WCEntry>): seq<WCEntry> {
    var existingIds := EntryIds(current);
    Filter(imported, (e: WCEntry) => e.id !in existingIds)
  }

  /**
   * An imported welder merged into the existing record with the same surname:
   * the record keeps its identity, gains the entries it does not have yet, and
   * its overtime maps win over the imported ones on shared dates.
   */
  function MergeWelder(current: Welder, imported: Welder): (r: Welder)
    ensures r.id == current.id && r.lastName == current.lastName
    ensures |r.entries| >= |current.entries| && r.entries[..|current.entries|] == current.entries
    ensures forall e :: e in r.entries[|current.entries|..] <==> e in imported.entries && e.id !in EntryIds(current.entries)
    ensures r.overtime.Keys == current.overtime.Keys + imported.overtime.Keys
    ensures forall d :: d in current.overtime ==> r.overtime[d] == current.overtime[d]
    ensures forall d :: d in imported.overtime && d !in current.overtime ==> r.overtime[d] == imported.overtime[d]
    ensures r.overtimeManual.Keys == current.overtimeManual.Keys + imported.overtimeManual.Keys
    ensures forall d :: d in current.overtimeManual ==> r.overtimeManual[d] == current.overtimeManual[d]
    ensures forall d :: d in imported.overtimeManual && d !in current.overtimeManual ==> r.overtimeManual[d] == imported.overtimeManual[d]
  {
    var existingIds := EntryIds(current.entries);
    FilterMembers(imported.entries, (e: WCEntry) => e.id !in existingIds);
    current.(
      entries := current.entries + NewEntries(current.entries, imported.entries),
      overtime := imported.overtime + current.overtime,
      overtimeManual := imported.overtimeManual + current.overtimeManual)
  }

  lemma EntryIdsConcat(a: seq<WCEntry>, b: seq<WCEntry>)
    ensures EntryIds(a + b) == EntryIds(a) + EntryIds(b)
  {
    forall id | id in EntryIds(a + b) ensures id in EntryIds(a) + EntryIds(b) {
      var i :| 0 <= i < |a + b| && (a + b)[i].id == id;
      if i >= |a| {
        assert b[i - |a|] == (a + b)[i];
      }
    }
    forall id | id in EntryIds(b) ensures id in EntryIds(a + b) {
      var i :| 0 <= i < |b| && b[i].id == id;
      assert (a + b)[|a| + i] == b[i];
    }
    forall id | id in EntryIds(a) ensures id in EntryIds(a + b) {
      var i :| 0 <= i < |a| && a[i].id == id;
      assert (a + b)[i] == a[i];
    }
  }

  lemma NewEntriesIds(current: seq<WCEntry>, imported: seq<WCEntry>)
    ensures EntryIds(current) + EntryIds(NewEntries(current, imported)) == EntryIds(current) + EntryIds(imported)
  {
    var existingIds := EntryIds(current);
    var added := NewEntries(current, imported);
    FilterMembers(imported, (e: WCEntry) => e.id !in existingIds);
    forall id | id in EntryIds(imported) && id !in existingIds ensures id in EntryIds(added) {
      var i :| 0 <= i < |imported| && imported[i].id == id;
      assert imported[i] in added;
      var m :| 0 <= m < |added| && added[m] == imported[i];
    }
    forall id | id in EntryIds(added) ensures id in EntryIds(imported) {
      var m :| 0 <= m < |added| && added[m].id == id;
      assert added[m] in added;
      var i :| 0 <= i < |imported| && imported[i] == added[m];
    }
  }

  /** After a merge the record holds every entry id it held before and every imported one. */
  lemma MergeWelderEntryIds(current: Welder, imported: Welder)
    ensures EntryIds(MergeWelder(current, imported).entries) == EntryIds(current.entries) + EntryIds(imported.entries)
  {
    EntryIdsConcat(current.entries, NewEntries(current.entries, imported.entries));
    NewEntriesIds(current.entries, imported.entries);
  }

  /** Merging the same imported welder a second time changes nothing. */
  lemma MergeWelderIdempotent(current: Welder, imported: Welder)
    ensures MergeWelder(MergeWelder(current, imported), imported) == MergeWelder(current, imported)
  {
    var once := MergeWelder(current, imported);
    MergeWelderEntryIds(current, imported);
    var ids := EntryIds(once.entries);
    forall i | 0 <= i < |imported.entries| ensures imported.entries[i].id in ids {
    }
    FilterNoneKept(imported.entries, (e: WCEntry) => e.id !in ids);
    assert once.entries + [] == once.entries;
  }

  /** One imported welder taken into the growing result: merged into the first record with its surname, or appended. */
  function Absorb(result: seq<Welder>, imported: Welder): seq<Welder> {
    var existingIdx := FindWelder(result, imported.lastName);
    if existingIdx >= 0 then result[existingIdx := MergeWelder(result[existingIdx], imported)]
    else result + [imported]
  }

  /** The welder merge of importData: the imported welders taken in one at a time, left to right. */
  function MergedWelders(existing: seq<Welder>, imported: seq<Welder>): seq<Welder> {
    if imported == [] then existing
    else Absorb(MergedWelders(existing, imported[..|imported| - 1]), imported[|imported| - 1])
  }

  /** The welder merge as importData runs it: copy the list, then merge or push each imported welder in turn. */
  method MergeWelders(existing: seq<Welder>, imported: seq<Welder>) returns (result: seq<Welder>)
    ensures result == MergedWelders(existing, imported)
  {
    result := existing;
    for n := 0 to |imported|
      invariant result == MergedWelders(existing, imported[..n])
    {
      var w := imported[n];
      var existingIdx := FindWelder(result, w.lastName);
      if existingIdx >= 0 {
        result := result[existingIdx := MergeWelder(result[existingIdx], w)];
      } else {
        result := result + [w];
      }
      assert imported[..n + 1][..n] == imported[..n];
    }
    assert imported[..|imported|] == imported;
  }

  /** `later` is `earlier` after merges: same identity, earlier entries as a prefix, earlier overtime values kept. */
  ghost predicate Extends(later: Welder, earlier: Welder) {
    && later.id == earlier.id
    && later.lastName == earlier.lastName
    && |later.entries| >= |earlier.entries|
    && later.entries[..|earlier.entries|] == earlier.entries
    && (forall d :: d in earlier.overtime ==> d in later.overtime && later.overtime[d] == earlier.overtime[d])
    && (forall d :: d in earlier.overtimeManual ==> d in later.overtimeManual && later.overtimeManual[d] == earlier.overtimeManual[d])
  }

  lemma ExtendsTransitive(c: Welder, b: Welder, a: Welder)
    requires Extends(c, b) && Extends(b, a)
    ensures Extends(c, a)
  {
    assert c.entries[..|a.entries|] == c.entries[..|b.entries|][..|a.entries|];
  }

  /** No existing welder is removed, reordered or loses anything; each keeps its id and surname. */
  lemma {:induction false} MergedWeldersKeepsExisting(existing: seq<Welder>, imported: seq<Welder>)
    ensures |MergedWelders(existing, imported)| >= |existing|
    ensures forall i :: 0 <= i < |existing| ==> Extends(MergedWelders(existing, imported)[i], existing[i])
    decreases |imported|
  {
    if imported != [] {
      var prev := MergedWelders(existing, imported[..|imported| - 1]);
      MergedWeldersKeepsExisting(existing, imported[..|imported| - 1]);
      var w := imported[|imported| - 1];
      var r := Absorb(prev, w);
      forall i | 0 <= i < |existing| ensures Extends(r[i], existing[i]) {
        var k := FindWelder(prev, w.lastName);
        if k == i {
          assert Extends(r[i], prev[i]);
          ExtendsTransitive(r[i], prev[i], existing[i]);
        } else {
          assert r[i] == prev[i];
        }
      }
    }
  }

  /** `holder` has every entry id of `w` and every date of both of its overtime maps. */
  ghost predicate Carries(holder: Welder, w: Welder) {
    && EntryIds(w.entries) <= EntryIds(holder.entries)
    && w.overtime.Keys <= holder.overtime.Keys
    && w.overtimeManual.Keys <= holder.overtimeManual.Keys
  }

  /** A merged record carries both what it held before and what was imported into it. */
  lemma MergeWelderCarries(current: Welder, imported: Welder)
    ensures Carries(MergeWelder(current, imported), current)
    ensures Carries(MergeWelder(current, imported), imported)
  {
    MergeWelderEntryIds(current, imported);
  }

  /** Taking in one welder loses nothing: every record of the result stays in place with its surname and its data. */
  lemma AbsorbKeeps(result: seq<Welder>, imported: Welder, k: nat)
    requires k < |result|
    ensures k < |Absorb(result, imported)|
    ensures Absorb(result, imported)[k].lastName == result[k].lastName
    ensures Carries(Absorb(result, imported)[k], result[k])
  {
    if FindWelder(result, imported.lastName) == k {
      MergeWelderCarries(result[k], imported);
    }
  }

  /**
   * Nothing imported is lost: the entry ids and overtime dates of each imported
   * welder all reach the result record `k` that bears that welder's surname.
   */
  lemma {:induction false} MergedWeldersReceivesImports(existing: seq<Welder>, imported: seq<Welder>, j: nat) returns (k: nat)
    requires j < |imported|
    ensures k < |MergedWelders(existing, imported)|
    ensures MergedWelders(existing, imported)[k].lastName == imported[j].lastName
    ensures Carries(MergedWelders(existing, imported)[k], imported[j])
    decreases |imported|
  {
    var n := |imported| - 1;
    var prev := MergedWelders(existing, imported[..n]);
    var w := imported[n];
    if j < n {
      assert imported[..n][j] == imported[j];
      k := MergedWeldersReceivesImports(existing, imported[..n], j);
      AbsorbKeeps(prev, w, k);
    } else {
      var idx := FindWelder(prev, w.lastName);
      if idx >= 0 {
        MergeWelderCarries(prev[idx], w);
        k := idx;
      } else {
        k := |prev|;
      }
    }
  }

  /** The three kinds of keyed data a welder record holds. */
  datatype Part = EntryIdsPart | OvertimePart | OvertimeManualPart

  /** The keys of one kind a record holds: its entry ids, or the dates of one of its overtime maps. */
  function Keys(w: Welder, part: Part): set<string> {
    match part
    case EntryIdsPart => EntryIds(w.entries)
    case OvertimePart => w.overtime.Keys
    case OvertimeManualPart => w.overtimeManual.Keys
  }

  /** A merged record's keys of every kind are those of the existing record and of the imported welder together. */
  lemma MergeWelderKeys(current: Welder, imported: Welder, part: Part)
    ensures Keys(MergeWelder(current, imported), part) == Keys(current, part) + Keys(imported, part)
  {
    MergeWelderEntryIds(current, imported);
  }

  /** Some record of `welders` with surname `lastName` holds the key `key` of kind `part`. */
  ghost predicate HoldsKey(welders: seq<Welder>, lastName: string, part: Part, key: string) {
    exists i :: 0 <= i < |welders| && welders[i].lastName == lastName && key in Keys(welders[i], part)
  }

  /**
   * Nothing is invented: every entry id and overtime date of a result record
   * comes from an existing or an imported welder with that record's surname.
   */
  lemma {:induction false} MergedWeldersKeySources(existing: seq<Welder>, imported: seq<Welder>, k: nat, part: Part, key: string)
    requires k < |MergedWelders(existing, imported)|
    requires key in Keys(MergedWelders(existing, imported)[k], part)
    ensures var name := MergedWelders(existing, imported)[k].lastName;
      HoldsKey(existing, name, part, key) || HoldsKey(imported, name, part, key)
    decreases |imported|
  {
    if imported != [] {
      var n := |imported| - 1;
      var prev := MergedWelders(existing, imported[..n]);
      var w := imported[n];
      var r := Absorb(prev, w);
      var name := r[k].lastName;
      var idx := FindWelder(prev, w.lastName);
      if k == |prev| {
        assert r[k] == w;
        assert imported[n] == w;
      } else if idx == k && key in Keys(w, part) {
        assert imported[n] == w && w.lastName == name;
      } else {
        if idx == k {
          MergeWelderKeys(prev[k], w, part);
        }
        assert prev[k].lastName == name && key in Keys(prev[k], part);
        MergedWeldersKeySources(existing, imported[..n], k, part, key);
        if HoldsKey(imported[..n], name, part, key) {
          var i :| 0 <= i < n && imported[..n][i].lastName == name && key in Keys(imported[..n][i], part);
          assert imported[..n][i] == imported[i];
        }
      }
    }
  }

  function LastNames(welders: seq<Welder>): set<string> {
    set i | 0 <= i < |welders| :: welders[i].lastName
  }

  predicate UniqueLastNames(welders: seq<Welder>) {
    forall i, j :: 0 <= i < j < |welders| ==> welders[i].lastName != welders[j].lastName
  }

  lemma LastNamesSnoc(welders: seq<Welder>)
    requires welders != []
    ensures LastNames(welders) == LastNames(welders[..|welders| - 1]) + {welders[|welders| - 1].lastName}
  {
    var n := |welders| - 1;
    forall i | 0 <= i < n ensures welders[..n][i] == welders[i] {}
  }

  /** Taking in one welder adds its surname to those of the result and no other. */
  lemma AbsorbLastNames(result: seq<Welder>, imported: Welder)
    ensures LastNames(Absorb(result, imported)) == LastNames(result) + {imported.lastName}
  {
    var r := Absorb(result, imported);
    var k := FindWelder(result, imported.lastName);
    if k >= 0 {
      forall i | 0 <= i < |r| ensures r[i].lastName == result[i].lastName {}
      assert LastNames(r) == LastNames(result);
    } else {
      assert r[..|r| - 1] == result;
      LastNamesSnoc(r);
    }
  }

  /** The result holds the surnames of the existing and of the imported welders, and no others. */
  lemma {:induction false} MergedWeldersLastNames(existing: seq<Welder>, imported: seq<Welder>)
    ensures LastNames(MergedWelders(existing, imported)) == LastNames(existing) + LastNames(imported)
    decreases |imported|
  {
    if imported != [] {
      var n := |imported| - 1;
      MergedWeldersLastNames(existing, imported[..n]);
      AbsorbLastNames(MergedWelders(existing, imported[..n]), imported[n]);
      LastNamesSnoc(imported);
    }
  }

  /** Matching is against the growing result, so surnames stay unique: two imported welders with one new surname become one record. */
  lemma {:induction false} MergedWeldersUnique(existing: seq<Welder>, imported: seq<Welder>)
    requires UniqueLastNames(existing)
    ensures UniqueLastNames(MergedWelders(existing, imported))
    decreases |imported|
  {
    if imported != [] {
      var n := |imported| - 1;
      var prev := MergedWelders(existing, imported[..n]);
      MergedWeldersUnique(existing, imported[..n]);
      var w := imported[n];
      var k := FindWelder(prev, w.lastName);
      var r := Absorb(prev, w);
      if k >= 0 {
        forall i | 0 <= i < |r| ensures r[i].lastName == prev[i].lastName {}
      } else {
        forall i | 0 <= i < |prev| ensures r[i] == prev[i] {}
      }
    }
  }

  lemma {:induction false} UniqueLastNamesCount(welders: seq<Welder>)
    requires UniqueLastNames(welders)
    ensures |LastNames(welders)| == |welders|
    decreases |welders|
  {
    if welders != [] {
      var n := |welders| - 1;
      UniqueLastNamesCount(welders[..n]);
      LastNamesSnoc(welders);
      assert welders[n].lastName !in LastNames(welders[..n]);
    }
  }

  /** With unique surnames to start with, the result has one record per surname of the existing and imported welders. */
  lemma MergedWeldersCount(existing: seq<Welder>, imported: seq<Welder>)
    requires UniqueLastNames(existing)
    ensures |MergedWelders(existing, imported)| == |LastNames(existing) + LastNames(imported)|
  {
    MergedWeldersUnique(existing, imported);
    MergedWeldersLastNames(existing, imported);
    UniqueLastNamesCount(MergedWelders(existing, imported));
  }

  /** A welder appended after records of other surnames is found at the end. */
  lemma FindWelderAppended(welders: seq<Welder>, w: Welder)
    requires forall j :: 0 <= j < |welders| ==> welders[j].lastName != w.lastName
    ensures FindWelder(welders + [w], w.lastName) == |welders|
  {
    var ws := welders + [w];
    assert ws[|welders|].lastName == w.lastName;
    assert forall j :: 0 <= j < |welders| ==> ws[j] == welders[j];
  }

  /** Importing two welders is taking them in one after the other. */
  lemma MergedWeldersPair(existing: seq<Welder>, a: Welder, b: Welder)
    ensures MergedWelders(existing, [a, b]) == Absorb(Absorb(existing, a), b)
  {
    assert [a, b][..1] == [a] && [a][..0] == [];
    assert MergedWelders(existing, [a]) == Absorb(existing, a);
  }

  /** Two imported welders sharing a surname no existing welder has end up as one appended record. */
  lemma SharedNewSurnameMerges(existing: seq<Welder>, a: Welder, b: Welder)
    requires a.lastName == b.lastName
    requires forall j :: 0 <= j < |existing| ==> existing[j].lastName != a.lastName
    ensures MergedWelders(existing, [a, b]) == existing + [MergeWelder(a, b)]
  {
    MergedWeldersPair(existing, a, b);
    assert FindWelder(existing, a.lastName) == -1;
    var once := existing + [a];
    FindWelderAppended(existing, a);
    assert once[|existing|] == a;
    assert once[|existing| := MergeWelder(a, b)] == existing + [MergeWelder(a, b)];
  }

  // ---------------------------------------------------------------------------
  // importData
  // ---------------------------------------------------------------------------

  /** The three persisted stores. */
  datatype AppState = AppState(welders: seq<Welder>, rates: seq<Rate>, planItems: seq<PlanItem>)

  /** A parsed import file; a section that is missing or not an array is `None`. */
  datatype ImportPayload = ImportPayload(
    welders: Option<seq<Welder>>,
    rates: Option<seq<Rate>>,
    planItems: Option<seq<PlanItem>>)

  /**
   * importData on already parsed data: merge rates, then plan items, then
   * welders (whose store change runs the subscriber), then recompute the plan.
   */
  function ImportData(s: AppState, data: ImportPayload): (r: AppState)
    ensures r.rates == match data.rates case Some(rs) => MergeRates(s.rates, rs) case None => s.rates
    ensures r.welders == match data.welders case Some(ws) => MergedWelders(s.welders, ws) case None => s.welders
    ensures r.planItems == Recalc(match data.planItems case Some(ps) => MergePlan(s.planItems, ps) case None => s.planItems, r.welders)
  {
    var rates := match data.rates case Some(rs) => MergeRates(s.rates, rs) case None => s.rates;
    var plan := match data.planItems case Some(ps) => MergePlan(s.planItems, ps) case None => s.planItems;
    match data.welders
    case Some(ws) =>
      var welders := MergedWelders(s.welders, ws);
      var notified := PlanAfterNotify(plan, welders);
      NotifyKeepsPlanCurrent(plan, welders);
      RecalcIdempotent(plan, welders);
      AppState(welders, rates, Recalc(notified, welders))
    case None =>
      AppState(s.welders, rates, Recalc(plan, s.welders))
  }
}
