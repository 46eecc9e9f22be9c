# Rank-consistent hero store

A Dafny model of the data logic of a small hero-roster application. Each
hero record has a name, an alias, a quirk, a license number and a rank. The
data service keeps the ranked heroes in a dense ranking 1..N. When a rank
changes, every ranked record at or above the affected rank moves by one.
The model replaces the search-engine index with an in-memory map from
reference to record. The index metadata (`nextID`, `nextRank`) become plain
fields.

Modules, one per source concern:

- `HeroData` (`heroFile.ts`): the sentinels `UNKNOWN = "???"`,
  `UNLICENSED = -1` and `UNRANKED = 1000`, and the `HeroFile` record. The
  record is a datatype: its constructor stores each argument in the field
  of the same name, and no record is changed after construction. The module
  also holds the invariants the record's comments document (unique
  reference, license number, alias and rank).
- `SimpleQuery` (`ESDataClasses/ESSimpleQuery.ts`): the query and its
  builder class. The builder's lists are `seq` fields that its methods
  reassign. `MatchWrap` is the slot-by-slot wrapping loop. Lines 39-201 of
  `AngEl/src/app/elasticsearch.service.ts` hold the same two classes, line
  for line (only a log line in `shouldMatch` differs). They are modelled
  once, and some rows below cite that copy.
- `HeroStore` (the pure part of `ESheroes.service.ts`): alias validity, the
  rank shift, the rank and field resolution of an edit, and the index as
  an add, an edit or a delete leaves it.
- `HeroView` (the view state of `ESheroes.service.ts`): sort clicks,
  paging, JavaScript `trim`, and the should-match clauses of a search.
- `HeroService` (`ESheroes.service.ts`): the service class. Its methods
  update the index, the counter and the view state in place. Each is proved
  against the functions of `HeroStore` and `HeroView`.
- `RankDensity`: the ranking is dense (ranks exactly 1..N, each once). It
  stays dense after a delete. Given `nextRank = N + 1`, it also stays dense
  after an edit, except one that moves an already ranked hero to rank
  nextRank itself (see Findings).
- `Registry`: all documented invariants together, kept by add, delete and
  a corrected edit.
- `HeroEdit`, `HeroAdd` (the two form components): what `submit` passes to
  the service.

Because `UNRANKED` is the positive number 1000, a genuine rank of 1000
cannot be told apart from "unranked". A dense ranking therefore holds at
most 999 ranks (`RankDensity.DenseBelowSentinel`). When 999 heroes are
ranked, ranking one more pushes the hero at 999 to 1000, so that hero
silently leaves the ranking (`RankDensity.RankingAtCapacityEvicts`).

## Model

| member | source | states |
|---|---|---|
| `HeroData.KeyedMeansUniqueReferences` | FirstFailedCloudAttempt/AngEl/src/app/heroFile.ts:11-17 | in an index keyed by reference, no two records share a reference, so that invariant of the record holds by construction |
| `HeroData.SentinelsNeverClash` | FirstFailedCloudAttempt/AngEl/src/app/heroFile.ts:1-6 | the sentinels `UNKNOWN`, `UNLICENSED` and `UNRANKED` are exempt from the uniqueness invariants: any number of records may carry them |
| `SimpleQuery.Wrapped` | AngElLocal/AngEl/src/app/ESDataClasses/ESSimpleQuery.ts:144-150 | every clause `c` becomes `{match: c}`, with length and order kept |
| `SimpleQuery.UnwrapWrapped` | AngEl/src/app/elasticsearch.service.ts:180-185 | wrapping loses nothing: taking one `match` layer off gives the clauses back |
| `SimpleQuery.WrapNotIdempotent` | AngElLocal/AngEl/src/app/ESDataClasses/ESSimpleQuery.ts:156-159 | wrapping a non-empty list twice differs from wrapping it once |
| `SimpleQuery.QueryBuilder.constructor` | AngElLocal/AngEl/src/app/ESDataClasses/ESSimpleQuery.ts:59-66 | a fresh builder has from 0, size 10, empty clause lists and sort `["_score"]` |
| `SimpleQuery.QueryBuilder.MustMatch` | AngElLocal/AngEl/src/app/ESDataClasses/ESSimpleQuery.ts:74-77 | appends the clauses, in order, to the must list only |
| `SimpleQuery.QueryBuilder.ShouldMatch` | AngElLocal/AngEl/src/app/ESDataClasses/ESSimpleQuery.ts:84-87 | appends the clauses, in order, to the should list only |
| `SimpleQuery.QueryBuilder.MustNotMatch` | AngElLocal/AngEl/src/app/ESDataClasses/ESSimpleQuery.ts:94-97 | appends the clauses, in order, to the must-not list only |
| `SimpleQuery.QueryBuilder.SortHits` | AngEl/src/app/elasticsearch.service.ts:144-147 | puts `{field: order}` ahead of every earlier sort key, so `"_score"` stays last |
| `SimpleQuery.QueryBuilder.FromHit` | AngElLocal/AngEl/src/app/ESDataClasses/ESSimpleQuery.ts:118-121 | overwrites `from` and nothing else |
| `SimpleQuery.QueryBuilder.NumHits` | AngElLocal/AngEl/src/app/ESDataClasses/ESSimpleQuery.ts:129-132 | overwrites `size` and nothing else |
| `SimpleQuery.QueryBuilder.MatchWrap` | AngElLocal/AngEl/src/app/ESDataClasses/ESSimpleQuery.ts:144-150 | the loop leaves every slot wrapped as `{match: c}` |
| `SimpleQuery.QueryBuilder.Build` | AngElLocal/AngEl/src/app/ESDataClasses/ESSimpleQuery.ts:156-161 | wraps the builder's own three lists in place; the query carries from, size and sort, and the three lists under `query.bool` |
| `SimpleQuery.BuildTwice` | AngEl/src/app/elasticsearch.service.ts:192-197 | a second build from the same builder wraps the clauses again: `{match: {match: c}}` where the first build gave `{match: c}` |
| `HeroStore.ValidHeroData` | AngElLocal/AngEl/src/app/ESheroes.service.ts:379-391 | `UNKNOWN` is always valid; any other alias is valid iff no stored record has it |
| `HeroStore.Delta` | AngElLocal/AngEl/src/app/ESheroes.service.ts:354 | direction "down" lowers a rank by one; every other direction raises it by one |
| `HeroStore.Shifted` | AngElLocal/AngEl/src/app/ESheroes.service.ts:347-370 | no-op at `UNRANKED`; otherwise exactly the records with rank not `UNRANKED` and at least the threshold move by one, and every other record and field stays |
| `HeroStore.ResolveRank` | AngElLocal/AngEl/src/app/ESheroes.service.ts:184-191 | the new rank is taken iff it is present, non-zero, and in (0, nextRank] or `UNRANKED`; otherwise the old rank stays, with no error |
| `HeroStore.Pick` | AngElLocal/AngEl/src/app/ESheroes.service.ts:188-190 | a text field takes the new value when it is truthy, else keeps the old one |
| `HeroStore.NewFile` | AngElLocal/AngEl/src/app/ESheroes.service.ts:185-192 | the edited record keeps reference and license number and takes name, alias and quirk by `Pick` |
| `HeroStore.EditShift` | AngElLocal/AngEl/src/app/ESheroes.service.ts:194-213 | no shift when the rank is unchanged; unranked to ranked shifts up at the new rank; ranked to unranked shifts down at the old; ranked to ranked shifts down at the old, then up at the new |
| `HeroStore.Edited` | AngElLocal/AngEl/src/app/ESheroes.service.ts:184-227 | after the shifts the record at the old reference is overwritten with the new record; other records change at most in rank |
| `HeroStore.ResolveRankFixed` | AngElLocal/AngEl/src/app/ESheroes.service.ts:191 | corrected rank resolution: `ResolveRank` with the bound nextRank - 1 for a hero already ranked, so a request within that bound, or `UNRANKED`, is taken |
| `HeroStore.FixChangesOnlyBound` | AngElLocal/AngEl/src/app/ESheroes.service.ts:191 | the correction differs from the code as written in one case only: a ranked hero asking for rank nextRank, which keeps its old rank instead |
| `HeroStore.EditedFixed` | AngElLocal/AngEl/src/app/ESheroes.service.ts:184-227 | the edit with the corrected rank resolution |
| `HeroStore.Deleted` | AngElLocal/AngEl/src/app/ESheroes.service.ts:146-153 | the record at the file's reference is gone, the others change at most in rank, and an unranked delete shifts nothing |
| `HeroStore.Added` | AngElLocal/AngEl/src/app/ESheroes.service.ts:119-132 | for a reference not yet stored, exactly one new record, with the given license number and `UNRANKED`; no existing record changes |
| `HeroStore.EditAccepted` | AngElLocal/AngEl/src/app/ESheroes.service.ts:175-181 | an edit goes ahead iff its alias is absent, empty, `UNKNOWN`, or held by no stored record |
| `HeroStore.IndexBody` | AngElLocal/AngEl/src/app/ESheroes.service.ts:220-226 | the document written carries license number, name, alias, quirk and rank; the reference is the document id |
| `HeroStore.ESHeroFile2HeroFile` | AngElLocal/AngEl/src/app/ESheroes.service.ts:327-335 | the conversion of a hit loses nothing: the hit is rebuilt from the record |
| `HeroStore.ReadBackIndexed` | AngElLocal/AngEl/src/app/ESheroes.service.ts:216-227 | reading back the document an edit writes gives the record written |
| `HeroView.Trim` | AngElLocal/AngEl/src/app/ESheroes.service.ts:78 | the result is the slice of the input between its leading and trailing white space, and it neither starts nor ends with white space |
| `HeroView.TrimIdempotent` | AngElLocal/AngEl/src/app/ESheroes.service.ts:77-80 | a stored search term is already trimmed |
| `HeroView.SortAfterClick` | AngElLocal/AngEl/src/app/ESheroes.service.ts:54-63 | the current field flips asc and desc; another field is selected ascending |
| `HeroView.ClickTwiceRestores` | AngElLocal/AngEl/src/app/ESheroes.service.ts:56-57 | two clicks on the sort field restore its direction |
| `HeroView.PageAfterUp` | AngElLocal/AngEl/src/app/ESheroes.service.ts:65-69 | the page advances by one iff the current list is at least a page long |
| `HeroView.PageAfterDown` | AngElLocal/AngEl/src/app/ESheroes.service.ts:71-75 | the page goes back by one, but never below 1 |
| `HeroView.PagingStaysInRange` | AngElLocal/AngEl/src/app/ESheroes.service.ts:65-75 | pages stay at 1 or more; a page up advances the first hit by one page size, and a page down undoes it |
| `HeroView.SearchClauses` | AngElLocal/AngEl/src/app/ESheroes.service.ts:252-261 | no clause for an empty term; otherwise the term on alias, name and quirk, and also on rank and heroID when it is a number |
| `HeroService.ESHeroService.constructor` | AngElLocal/AngEl/src/app/ESheroes.service.ts:37-41 | page 1, size 10, sort by rank ascending, no search term |
| `HeroService.ESHeroService.UpdateSort` | AngElLocal/AngEl/src/app/ESheroes.service.ts:54-63 | the sort state becomes `SortAfterClick` of the old one |
| `HeroService.ESHeroService.PageUp` | AngElLocal/AngEl/src/app/ESheroes.service.ts:65-69 | the page becomes `PageAfterUp` of the old one |
| `HeroService.ESHeroService.PageDown` | AngElLocal/AngEl/src/app/ESheroes.service.ts:71-75 | the page becomes `PageAfterDown` of the old one |
| `HeroService.ESHeroService.SearchTerm` | AngElLocal/AngEl/src/app/ESheroes.service.ts:77-80 | stores the trimmed term and resets the page to 1 |
| `HeroService.ESHeroService.ShouldClauses` | AngElLocal/AngEl/src/app/ESheroes.service.ts:252-261 | the pushes give exactly `SearchClauses`: the term on alias, name and quirk, plus rank and heroID for a number |
| `HeroService.ESHeroService.PageQuery` | AngElLocal/AngEl/src/app/ESheroes.service.ts:250-268 | from = (page - 1) * size, size hits, sorted by the current field and direction before `"_score"`, should-match clauses wrapped as `match` |
| `HeroService.ESHeroService.HitsToHeroes` | AngElLocal/AngEl/src/app/ESheroes.service.ts:272-278 | one hero record per hit, in order |
| `HeroService.ESHeroService.GetHeroPage` | AngElLocal/AngEl/src/app/ESheroes.service.ts:250-279 | the page query, and the records of the hits the search returns for it |
| `HeroService.ESHeroService.AddHero` | AngElLocal/AngEl/src/app/ESheroes.service.ts:114-134 | a valid alias gives `Added` with the old counter and raises the counter by one; an invalid alias changes nothing |
| `HeroService.ESHeroService.DelHero` | AngElLocal/AngEl/src/app/ESheroes.service.ts:146-153 | removes the record, then shifts down at the file's rank |
| `HeroService.ESHeroService.EditHero` | AngElLocal/AngEl/src/app/ESheroes.service.ts:170-228 | false and no write for an invalid truthy alias; otherwise the index becomes `Edited` |
| `HeroService.ESHeroService.ShiftRanksBelow` | AngElLocal/AngEl/src/app/ESheroes.service.ts:347-370 | the record-by-record update leaves the index equal to `Shifted` |
| `RankDensity.DenseBelowSentinel` | FirstFailedCloudAttempt/AngEl/src/app/heroFile.ts:17 | since rank 1000 means unranked, a dense ranking holds fewer than 1000 ranks |
| `RankDensity.CloseGap` | AngElLocal/AngEl/src/app/ESheroes.service.ts:347-370 | a downward shift at a free place makes ranks 1..n minus that place dense in 1..n-1 |
| `RankDensity.OpenGap` | AngElLocal/AngEl/src/app/ESheroes.service.ts:347-370 | an upward shift at a place in 1..n+1 of a dense ranking frees exactly that place |
| `RankDensity.CommitKeepsDense` | AngElLocal/AngEl/src/app/ESheroes.service.ts:194-227 | the transition policy followed by the write keeps a dense ranking dense, for every rank a correct bound allows |
| `RankDensity.EditKeepsDense` | AngElLocal/AngEl/src/app/ESheroes.service.ts:184-227 | with nextRank = N + 1, an edit as written keeps ranks dense, unless it moves a ranked hero to rank N + 1 |
| `RankDensity.EditFixedKeepsDense` | AngElLocal/AngEl/src/app/ESheroes.service.ts:184-227 | with the corrected bound, every edit keeps ranks dense |
| `RankDensity.DeleteKeepsDense` | AngElLocal/AngEl/src/app/ESheroes.service.ts:146-153 | deleting a ranked record from 1..N leaves 1..N-1; an unranked delete leaves the ranking as it was |
| `RankDensity.RankedMoveShiftsBetween` | AngElLocal/AngEl/src/app/ESheroes.service.ts:199-204 | in a move from r1 to r2, each record ranked in (r1, r2], or in [r2, r1), moves one place towards r1; records ranked beyond both keep their rank |
| `RankDensity.MoveTwoToFour` | AngElLocal/AngEl/src/app/ESheroes.service.ts:199-204 | moving rank 2 of four to rank 4 gives 1, 4, 2, 3 |
| `RankDensity.RemoveRankTwo` | AngElLocal/AngEl/src/app/ESheroes.service.ts:146-153 | deleting rank 2 of three leaves ranks 1 and 2 |
| `RankDensity.MoveToNextRankLeavesHole` | AngElLocal/AngEl/src/app/ESheroes.service.ts:184-204 | for any dense ranking 1..N with nextRank N + 1, moving a ranked hero to N + 1 as written stores it at N + 1 and leaves rank N held by no one |
| `RankDensity.MoveToNextRankBreaksDensity` | AngElLocal/AngEl/src/app/ESheroes.service.ts:191 | such an edit leaves a ranking that is dense for no count |
| `RankDensity.MoveToNextRankLeavesGap` | AngElLocal/AngEl/src/app/ESheroes.service.ts:191 | the ranking 1, 2, 3 is dense, and moving the hero at 2 to rank 4 as written leaves a ranking dense for no count |
| `RankDensity.RankingAtCapacityEvicts` | AngElLocal/AngEl/src/app/ESheroes.service.ts:205-208 | with 999 ranked, ranking one more pushes the hero at 999 to the sentinel |
| `Registry.AddKeepsConsistent` | AngElLocal/AngEl/src/app/ESheroes.service.ts:114-134 | a valid add under a fresh reference keeps references, license numbers and aliases unique and ranks dense |
| `Registry.DeleteKeepsConsistent` | AngElLocal/AngEl/src/app/ESheroes.service.ts:146-153 | a delete keeps every invariant |
| `Registry.EditFixedKeepsConsistent` | AngElLocal/AngEl/src/app/ESheroes.service.ts:170-228 | an accepted edit with the corrected bound keeps every invariant |
| `HeroEdit.Submit` | AngElLocal/AngEl/src/app/hero-edit/hero-edit.component.ts:20-30 | one call with the selected hero; empty name, alias or quirk become `UNKNOWN`; the hero's own alias becomes null; an empty or non-numeric rank becomes `UNRANKED`; other inputs pass untrimmed |
| `HeroEdit.SubmitStores` | AngElLocal/AngEl/src/app/hero-edit/hero-edit.component.ts:25-29 | a null alias skips the uniqueness check; an empty field stores `UNKNOWN`, not the old value; an empty rank unranks the hero |
| `HeroAdd.Submit` | AngElLocal/AngEl/src/app/hero-add/hero-add.component.ts:17-25 | one call with (name, alias, quirk); empty fields become `UNKNOWN`, others pass untrimmed; no field is empty |
| `HeroAdd.SubmitStores` | AngElLocal/AngEl/src/app/hero-add/hero-add.component.ts:21-24 | an empty alias always passes validation; the added record is unranked with no empty field |

## Findings

| source | as written | input that shows it | evidently intended | confidence | as-written member | corrected member |
|---|---|---|---|---|---|---|
| AngElLocal/AngEl/src/app/ESheroes.service.ts:191 | a hero who is already ranked accepts any new rank up to `nextRank` = N + 1 | heroes ranked 1, 2, 3 and nextRank 4; edit the hero at 2 to rank 4: the ranks become 1, 4, 2, and nobody holds rank 3 | a ranked hero already counts among the N, so its new rank must lie in 1..N | not executed | `RankDensity.MoveToNextRankBreaksDensity` | `HeroStore.ResolveRankFixed` |

The service class (`HeroService.ESHeroService.EditHero`) and `HeroStore.Edited`
keep the behaviour as written. The invariant theorems of `Registry` use the
corrected `HeroStore.EditedFixed`. `RankDensity.EditFixedKeepsDense` proves
density for every corrected edit. `RankDensity.MoveToNextRankLeavesGap`
works the input in the table above.

## Left out

- The search-engine client and everything around it: connecting, pinging,
  `search`, `getHero`, and the `index`, `delete`, `get` and
  `updateByQuery` calls. The index is an in-memory map. The metadata
  `nextID` and `nextRank` are fields of the service; nothing in the code
  writes `nextRank`, so the density lemmas take `nextRank = N + 1` as a
  hypothesis.
- The reference of an added hero is generated by the index. `AddHero`
  takes it as a parameter and requires that no stored record has it.
- Timing and asynchrony: the `delay(1000)` calls, the un-awaited delete and
  shift in `delHero`, and the un-awaited update inside `shiftRanksBelow`.
  Every step is modelled as sequential, in the order written.
- Failure of a backend call, including a shift that updates only some
  records. A delete of a missing reference is modelled as removing nothing,
  and the shift still runs.
- Full-text `match` semantics and relevance scoring. The alias check and
  the search clauses are modelled as exact field equality. The query that
  `validHeroData` builds for its search is not modelled, only its count of
  hits.
- `Number` and `isNaN` are a given parser from text to an optional integer.
  Non-integer numbers such as "2.5" are not modelled.
- HeroService.ESHeroService.GetHeroPage: the search itself is a given
  function from query to hits.
- The builder methods return the builder for chaining. Here they return
  nothing, and the calls are made one after another.
- SimpleQuery.BuildTwice: `first` is a value taken at the first build. In
  the source the first query shares the builder's lists, so the second
  build rewraps its clauses too, and both queries end with the same
  doubly wrapped content. The model does not capture that.
- SimpleQuery.QueryBuilder.Build: the built query shares its lists with the
  builder, so a later `build` also rewraps the lists of an earlier query.
  The query here is a value, so that aliasing is not captured. Only the
  second query's double wrapping is.
- The log line in `shouldMatch` of the second builder copy.
- Hit fields other than `_id` and `_source` (`_index`, `_type`,
  `_score`). `_id` and `_source` are named `id` and `source`.
- `selectHero`, `getSelectedHero` and `getPage`, and the Angular
  components, routing and modules other than the two forms.
- The rest of `AngEl/src/app/elasticsearch.service.ts` after line 201
  (index and document management).
