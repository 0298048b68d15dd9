# Weld tracker calculations and import merge, in Dafny

This project models the calculation core of a welding production tracker.
It also models the tracker's data-import merge rules.

Welders record entries: a quantity of an article made on a date. Each article
has a time norm (hours per unit) in a rate table. From these the tracker
computes:

- the raw hours a welder produced on a day (`calcDayHours`);
- the overtime of a day, the hours above 8 (`calcOvertime`);
- the figures shown per day (`calcDayStats`). This is a left-to-right pass over
  the dates that carries an overtime *pool*. A day of 8 hours or more shows 8
  normal hours and banks its overtime: the stored value for that date when
  there is one, else the hours above 8. A shorter day draws from the pool
  what it needs to reach 8 hours;
- plan progress (`recalcPlanCompleted`): each plan item's `completed` total over
  all welders' entries of its article, and `locked` once the total reaches the target.

Two string normalisers are modelled too: `normalizeArticle` and `capitalizeFirst`.

On the store side the model covers two things. The first is the guard that
stops the welders subscriber from rewriting an unchanged plan. The second is
the merge policy of `importData`:

- rates and plan items are appended only when their article is new;
- welders are matched by surname, and their entries are merged by id;
- on the overtime maps, the existing values win.

Files:

- `types.dfy`: module `Types`, the records `Rate`, `PlanItem`, `WCEntry` and `Welder`.
- `seqs.dfy`: module `Seqs`, JavaScript's `filter` and the facts used about it.
- `utils.dfy`: module `Utils`, everything in `src/lib/utils.ts` that is modelled.
- `stores.dfy`: module `Stores`, the change guard and the import merge of `src/lib/stores.ts`.

Modelling choices:

- Hours, norms and quantities are `real`, so there is no floating-point rounding.
- Dates are strings, and the code only compares them for equality.
- `Record<string, …>` is a Dafny `map`.
- The loops of the source are methods with loop invariants, each proved equal to a
  specification function: `CalcDayHours`, `CalcDayStats`, `RecalcPlanCompleted`
  and `MergeWelders`.
- The properties are proved as lemmas about those functions.
- The welders subscriber and `importData` are modelled as functions over store values.

This revision of the code has no weekday/weekend rule. It has no special case for a
day without entries (such a day is a short day with 0 raw hours). It does
not read `overtimeManual`, and it has no start-date filtering, claiming or
freezing of locked plan items. The model has none of these rules either.

## Model

| member | source | states |
|---|---|---|
| `Utils.RemoveWhitespace` | src/lib/utils.ts:4 | a character is in the result exactly when it is in the input and is not whitespace (the `\s` class) |
| `Utils.UpperChar` | src/lib/utils.ts:4 | a lower-case ASCII letter becomes the upper-case letter 32 code points below it; any other character is unchanged; whitespace stays whitespace |
| `Utils.NormalizeArticle` | src/lib/utils.ts:3-5 | the normalised article holds no whitespace and no lower-case letter |
| `Utils.NormalizeArticleConcat` | src/lib/utils.ts:3-5 | normalising a concatenation is concatenating the normalised parts |
| `Utils.NormalizeArticleIgnoresWhitespace` | src/lib/utils.ts:4 | inserting a whitespace character anywhere does not change the normalised article |
| `Utils.NormalizeArticleFixes` | src/lib/utils.ts:3-5 | a code with no whitespace and no lower-case letter is its own normal form |
| `Utils.NormalizeArticleChar` | src/lib/utils.ts:3-5 | one character normalises to nothing when it is whitespace and to its upper-case form otherwise |
| `Utils.NormalizeArticleCons` | src/lib/utils.ts:3-5 | a code starting with a non-whitespace character normalises to that character upper-cased, followed by the normalised rest |
| `Utils.NormalizeArticleNoWhitespace` | src/lib/utils.ts:3-5 | a code without whitespace keeps its length, and each character becomes its upper-case form |
| `Utils.NormalizeArticleIdempotent` | src/lib/utils.ts:3-5 | normalising twice gives the same as normalising once |
| `Utils.Trim` | src/lib/utils.ts:97 | the trimmed string is empty exactly when the input is all whitespace, and otherwise starts and ends with a non-whitespace character |
| `Utils.TrimSlice` | src/lib/utils.ts:97 | the trimmed string is a contiguous piece of the input, and everything before and after it is whitespace |
| `Utils.CapitalizeFirst` | src/lib/utils.ts:96-100 | the result is as long as the trimmed input; it is empty exactly for an all-whitespace input; otherwise its first character is the upper-case form of the trimmed input's first character and the rest equals the trimmed input |
| `Utils.CapitalizeFirstIdempotent` | src/lib/utils.ts:96-100 | capitalising twice gives the same as capitalising once |
| `Utils.FindRate` | src/lib/utils.ts:20 | no rate is found exactly when no rate has the article; a found rate is in the table and has the article |
| `Utils.FindRateFirst` | src/lib/utils.ts:20 | of several rates for one article, the first in the table is the one used |
| `Seqs.FilterMembers` | src/lib/utils.ts:17 | an element is kept exactly when it is in the input and the predicate accepts it |
| `Seqs.FilterConcat` | src/lib/utils.ts:17 | filtering a concatenation is concatenating the filtered parts, so input order is kept |
| `Utils.CalcDayHours` | src/lib/utils.ts:16-26 | the loop over the day's entries returns the day's hours `DayHours` |
| `Utils.DayHoursAppend` | src/lib/utils.ts:16-26 | one more entry adds norm × quantity of the first rate for its article when the entry is on the day and has a rate, and adds 0 otherwise |
| `Utils.DayHoursConcat` | src/lib/utils.ts:16-26 | the day's hours of a concatenation are the sum of the parts' hours |
| `Utils.DayHoursIgnores` | src/lib/utils.ts:17-23 | an entry on another date, or of an article with no rate, changes nothing wherever it sits in the list |
| `Utils.DayHoursNonNegative` | src/lib/utils.ts:16-26 | with non-negative norms and quantities the day's hours are not negative |
| `Utils.CalcOvertime` | src/lib/utils.ts:32-35 | overtime is never negative; it is 0 exactly when the day has at most 8 hours, and otherwise the day has 8 plus the overtime |
| `Utils.DayStep` | src/lib/utils.ts:62-72 | a day of at least 8 hours shows 8 normal hours and the stored overtime (a stored 0 included), or the hours above 8 when nothing is stored, and the pool grows by exactly that amount; a shorter day shows no overtime and at most 8 normal hours, the pool shrinks by exactly what was added to the raw hours, the day falls short of 8 only when the pool is emptied, with a non-negative pool the draw is between 0 and the pool, and a negative pool is added to the raw hours and reset to 0 |
| `Utils.CalcDayStats` | src/lib/utils.ts:51-76 | the loop with its running pool returns the figures of the fold `DayStats` |
| `Utils.DayStatsKeys` | src/lib/utils.ts:57-75 | the result has a key for every date of the input and no other key |
| `Utils.DayStatsAt` | src/lib/utils.ts:60-73 | with distinct dates, the figures kept for the date at position i are those of the fold's step at position i, taken with the pool as it stood after the earlier dates |
| `Utils.PoolAfterStep` | src/lib/utils.ts:60-73 | the pool after position i is the pool that step i leaves |
| `Utils.PoolConservation` | src/lib/utils.ts:58-72 | the final pool equals the overtime banked on days of at least 8 hours minus the hours drawn on shorter days |
| `Utils.PoolNonNegative` | src/lib/utils.ts:58-72 | when no stored overtime is negative, the pool is never negative |
| `Utils.DayStatsBounds` | src/lib/utils.ts:64-71 | every day shows at most 8 normal hours, and when no stored overtime is negative no day shows negative overtime |
| `Utils.DayStatsUnstoredOvertime` | src/lib/utils.ts:61-71 | for a date with no stored value, the overtime shown is calcOvertime's, whatever the pool holds |
| `Utils.PoolScenario` | src/lib/utils.ts:37-49 | 10 hours on one day and nothing the next: the first shows 8 + 2, the second 2 + 0, and the pool ends empty |
| `Utils.Recalc` | src/lib/utils.ts:78-93 | the result has the input's length and order, and each item is that item recomputed |
| `Utils.RecalcPlanCompleted` | src/lib/utils.ts:78-93 | same length and order; each item keeps id, article, target, start date and completion date; `completed` is the article's total quantity over all welders; `locked` holds exactly when `completed` reaches the target |
| `Utils.CompletedIsTotalOverEntries` | src/lib/utils.ts:80-87 | `completed` is the article's quantity over all entries of all welders taken together |
| `Utils.ArticleQuantityIgnores` | src/lib/utils.ts:83 | an entry of another article changes no item's total |
| `Utils.RecalcIdempotent` | src/lib/utils.ts:78-93 | recomputing an already recomputed plan gives the same list |
| `Stores.Changed` | src/lib/stores.ts:40-42 | `changed` holds exactly when some item differs from the item at the same index in `completed` or `locked` |
| `Stores.OnWeldersChanged` | src/lib/stores.ts:35-47 | the subscriber writes exactly when some recomputed item differs from the stored one in `completed` or `locked`, and what it writes is the recomputed plan |
| `Stores.NotifyKeepsPlanCurrent` | src/lib/stores.ts:35-47 | whether the guard writes or skips, the plan store ends up holding the recomputed plan |
| `Stores.NotifySettles` | src/lib/stores.ts:39-45 | after a write, the next notification with the same welders writes nothing |
| `Stores.AppendNew` | src/lib/stores.ts:64-67 | the existing list is an unchanged prefix of the result, and the rest is the imported elements with new articles |
| `Stores.NewByArticleMembers` | src/lib/stores.ts:64-66 | an element is appended exactly when it was imported and no existing element has its article |
| `Stores.NewByArticleConcat` | src/lib/stores.ts:64-66 | the appended part follows the import piece by piece, so import order is kept |
| `Stores.MergeRates` | src/lib/stores.ts:62-68 | existing rates are an unchanged prefix; an appended rate is exactly an imported rate whose article no existing rate has |
| `Stores.MergePlan` | src/lib/stores.ts:70-76 | existing plan items are an unchanged prefix; an imported item whose article exists is dropped whatever its other fields |
| `Stores.AppendNewIdempotent` | src/lib/stores.ts:62-76 | merging the same import a second time appends nothing |
| `Stores.MergeRatesIdempotent` | src/lib/stores.ts:62-68 | importing the same rates twice gives the same rate table as importing them once |
| `Stores.MergePlanIdempotent` | src/lib/stores.ts:70-76 | importing the same plan items twice gives the same plan as importing them once |
| `Stores.MergeRatesKeepsDuplicateImports` | src/lib/stores.ts:64-67 | two imported rates for one new article are both appended, and lookups then use the first |
| `Stores.FindWelder` | src/lib/stores.ts:82 | the index of the first welder with the surname, or -1 exactly when none has it |
| `Stores.NewEntriesIds` | src/lib/stores.ts:85-86 | the existing ids plus the ids of the added entries are the existing ids plus all imported ids |
| `Stores.MergeWelder` | src/lib/stores.ts:85-95 | the record keeps id and surname; its entries are the existing ones followed by exactly the imported entries with an unseen id; each overtime map holds the keys of both, with the existing value on a shared key and the imported value on the others |
| `Stores.MergeWelderEntryIds` | src/lib/stores.ts:85-89 | the merged record's entry ids are the union of the existing and imported ids |
| `Stores.MergeWelderIdempotent` | src/lib/stores.ts:85-95 | merging the same imported welder twice gives the same record as merging once |
| `Stores.MergeWelders` | src/lib/stores.ts:78-101 | the loop that copies the list and merges or pushes each imported welder computes `MergedWelders` |
| `Stores.MergedWeldersKeepsExisting` | src/lib/stores.ts:80-99 | no existing welder is removed or reordered; each keeps id and surname, keeps its entries as a prefix and keeps its overtime values |
| `Stores.MergeWelderCarries` | src/lib/stores.ts:85-95 | the merged record holds every entry id and overtime date of the existing record and of the imported welder |
| `Stores.AbsorbKeeps` | src/lib/stores.ts:82-98 | taking in one imported welder keeps every record of the result at its index, with its surname and all its entry ids and overtime dates |
| `Stores.MergedWeldersReceivesImports` | src/lib/stores.ts:80-99 | for every imported welder, some result record with its surname holds all its entry ids and all the dates of both its overtime maps |
| `Stores.MergeWelderKeys` | src/lib/stores.ts:85-95 | the merged record's entry ids, overtime dates and manual-overtime dates are each the union of the existing record's and the imported welder's |
| `Stores.MergedWeldersKeySources` | src/lib/stores.ts:80-99 | every entry id, overtime date and manual-overtime date of a result record comes from an existing or an imported welder with that record's surname |
| `Stores.MergedWeldersLastNames` | src/lib/stores.ts:80-99 | the result's surnames are exactly the existing ones plus the imported ones |
| `Stores.MergedWeldersUnique` | src/lib/stores.ts:82-98 | matching against the growing result keeps surnames unique when they were unique before |
| `Stores.MergedWeldersCount` | src/lib/stores.ts:80-99 | with unique surnames before, the result has one record per distinct surname of existing and imported welders |
| `Stores.SharedNewSurnameMerges` | src/lib/stores.ts:81-98 | two imported welders sharing a surname that no existing welder has are appended as one record, the second merged into the first |
| `Stores.ImportData` | src/lib/stores.ts:59-107 | after an import, rates and welders are their merges when the section is present and unchanged otherwise; the plan is the recomputation of the merged plan against the final welders, even though the subscriber may also have recomputed it |

## Left out

- `createPersistedStore` and every `localStorage` read and write (src/lib/stores.ts:6-28): browser storage I/O.
- The Svelte `writable`/`subscribe`/`update`/`get` wiring. The welders subscriber is modelled only by what it does to the plan store (`OnWeldersChanged`). The stores are values passed to and returned from `ImportData`.
- `exportData`, `JSON.parse`, `JSON.stringify` and the `Array.isArray` checks. The parsed payload is taken as already-typed sections, each present or absent. A malformed file (a parse error) is not modelled.
- `todayISO` reads the system clock, and `formatQty` formats a floating-point number with `toFixed`.
- Floating-point arithmetic, `NaN` and infinities: hours and quantities are exact reals.
- Utils.NormalizeArticle: `toUpperCase` is modelled for the ASCII letters only. Other letters are left unchanged, so case mappings outside ASCII (some of which change the length) are not modelled. The whitespace class is JavaScript's `\s` set in full.
- Utils.CapitalizeFirst: the first letter is upper-cased for ASCII only, as in `NormalizeArticle`.
- `calcDayStats` does not check its `sortedDates` argument, and neither does the model: any list of dates is accepted. The result is a Dafny map. A JavaScript `Map` also keeps insertion order, and that order is not modelled.
- The build and tooling files (`dump_project.py`, `vite.config.ts`, `tailwind.config.js`) hold no application logic.
