/**
 * The record-level logic of the hero data service, over an in-memory
 * index: alias validity, rank shifting, and the record that an add, an
 * edit or a delete leaves behind.
 */
module HeroStore {
  import opened Optional
  import opened HeroData

  /** JavaScript truthiness of an optional string: present and not empty. */
  predicate Given(s: Option<string>) {
    s.Some? && s.value != ""
  }

  /** Hits of an exact-match search on the alias field. */
  function AliasHits(s: Store, alias: string): set<string> {
    set k | k in s && s[k].alias == alias
  }

  /**
   * Whether an alias may be given to a hero: UNKNOWN always may, any other
   * alias only when a search for it finds no stored record.
   */
  function ValidHeroData(s: Store, alias: string): (valid: bool)
    ensures alias == UNKNOWN ==> valid
    ensures alias != UNKNOWN ==> (valid <==> forall k :: k in s ==> s[k].alias != alias)
  {
    assert forall k :: k in s && s[k].alias == alias ==> k in AliasHits(s, alias);
    alias == UNKNOWN || |AliasHits(s, alias)| == 0
  }

  /** The change a shift makes to a rank: "down" lowers it, any other direction raises it. */
  function Delta(direction: string): (d: int)
    ensures direction == "down" ==> d == -1
    ensures direction != "down" ==> d == 1
  {
    if direction == "down" then -1 else 1
  }

  /**
   * Every ranked record whose rank is at least `rank` moves by one in the
   * given direction. Nothing moves when `rank` is the sentinel itself.
   */
  function Shifted(s: Store, rank: int, direction: string): (r: Store)
    ensures r.Keys == s.Keys
    ensures rank == UNRANKED ==> r == s
    ensures forall k :: k in s ==> r[k] == s[k].(rank := r[k].rank)
    ensures forall k :: k in s && rank != UNRANKED && IsRanked(s[k]) && s[k].rank >= rank ==>
      r[k].rank == s[k].rank + Delta(direction)
    ensures forall k :: k in s && !(IsRanked(s[k]) && s[k].rank >= rank) ==> r[k] == s[k]
  {
    if rank == UNRANKED then s
    else map k | k in s :: if IsRanked(s[k]) && s[k].rank >= rank then s[k].(rank := s[k].rank + Delta(direction)) else s[k]
  }

  /**
   * The rank an edit ends with: the requested rank when it is present,
   * non-zero and either in (0, nextRank] or the sentinel; otherwise the old
   * rank, silently.
   */
  function ResolveRank(oldRank: int, newRank: Option<int>, nextRank: int): (r: int)
    ensures r == oldRank || r == UNRANKED || 0 < r <= nextRank
    ensures r != oldRank ==> newRank == Some(r)
    ensures newRank == Some(UNRANKED) ==> r == UNRANKED
    ensures newRank.Some? && 0 < newRank.value <= nextRank ==> r == newRank.value
    ensures newRank.None? || newRank.value <= 0 || (newRank.value > nextRank && newRank.value != UNRANKED) ==>
      r == oldRank
  {
    if newRank.Some? && newRank.value != 0 && ((newRank.value > 0 && newRank.value <= nextRank) || newRank.value == UNRANKED)
    then newRank.value
    else oldRank
  }

  /** A text field of an edit: the new value when it is truthy, else the old one. */
  function Pick(newValue: Option<string>, oldValue: string): (r: string)
    ensures Given(newValue) ==> r == newValue.value
    ensures !Given(newValue) ==> r == oldValue
  {
    if Given(newValue) then newValue.value else oldValue
  }

  /** The record an edit writes, with the given, already resolved `rank`. */
  function NewFile(oldFile: HeroFile, newName: Option<string>, newAlias: Option<string>,
                   newQuirk: Option<string>, rank: int): (f: HeroFile)
    ensures f.reference == oldFile.reference && f.heroID == oldFile.heroID
    ensures f.name == Pick(newName, oldFile.name)
    ensures f.alias == Pick(newAlias, oldFile.alias)
    ensures f.quirk == Pick(newQuirk, oldFile.quirk)
    ensures f.rank == rank
  {
    HeroFile(oldFile.reference, oldFile.heroID, Pick(newName, oldFile.name),
             Pick(newAlias, oldFile.alias), Pick(newQuirk, oldFile.quirk), rank)
  }

  /** An edit goes ahead unless it carries a truthy alias that is not valid. */
  function EditAccepted(s: Store, newAlias: Option<string>): (accepted: bool)
    ensures accepted <==>
      newAlias.None? || newAlias.value == "" || newAlias.value == UNKNOWN ||
      forall k :: k in s ==> s[k].alias != newAlias.value
  {
    !Given(newAlias) || ValidHeroData(s, newAlias.value)
  }

  /**
   * The shifts an edit makes before it writes the record:
   * none when the rank is unchanged; unranked to ranked opens a place at
   * the new rank; ranked to unranked closes the old place; ranked to
   * ranked closes the old place, then opens the new one.
   */
  function EditShift(s: Store, oldRank: int, newRank: int): (r: Store)
    ensures r.Keys == s.Keys
    ensures forall k :: k in s ==> r[k] == s[k].(rank := r[k].rank)
    ensures oldRank == newRank ==> r == s
    ensures oldRank != newRank && oldRank == UNRANKED ==> r == Shifted(s, newRank, "up")
    ensures oldRank != newRank && newRank == UNRANKED ==> r == Shifted(s, oldRank, "down")
    ensures oldRank != newRank && oldRank != UNRANKED && newRank != UNRANKED ==>
      r == Shifted(Shifted(s, oldRank, "down"), newRank, "up")
  {
    if newRank != oldRank then
      if newRank != UNRANKED then
        if oldRank != UNRANKED then Shifted(Shifted(s, oldRank, "down"), newRank, "up")
        else Shifted(s, newRank, "up")
      else Shifted(s, oldRank, "down")
    else s
  }

  /**
   * The index after an accepted edit: the shifts of the rank transition,
   * then the new record stored over the old one.
   */
  function Edited(s: Store, oldFile: HeroFile, newName: Option<string>, newAlias: Option<string>,
                  newQuirk: Option<string>, newRank: Option<int>, nextRank: int): (r: Store)
    ensures r.Keys == s.Keys + {oldFile.reference}
    ensures r[oldFile.reference] ==
      NewFile(oldFile, newName, newAlias, newQuirk, ResolveRank(oldFile.rank, newRank, nextRank))
    ensures forall k :: k in s && k != oldFile.reference ==>
      r[k] == s[k].(rank := r[k].rank)
  {
    var f := NewFile(oldFile, newName, newAlias, newQuirk, ResolveRank(oldFile.rank, newRank, nextRank));
    EditShift(s, oldFile.rank, f.rank)[f.reference := f]
  }

  /**
   * The rank an edit should end with: as `ResolveRank`, except that a hero
   * already in the ranking may move only within (0, nextRank - 1], since it
   * is already counted among the ranked.
   */
  function ResolveRankFixed(oldRank: int, newRank: Option<int>, nextRank: int): (r: int)
    ensures r == oldRank || r == UNRANKED || 0 < r <= (if oldRank != UNRANKED then nextRank - 1 else nextRank)
    ensures newRank == Some(UNRANKED) ==> r == UNRANKED
    ensures r == ResolveRank(oldRank, newRank, if oldRank != UNRANKED then nextRank - 1 else nextRank)
  {
    var bound := if oldRank != UNRANKED then nextRank - 1 else nextRank;
    if newRank.Some? && newRank.value != 0 && ((newRank.value > 0 && newRank.value <= bound) || newRank.value == UNRANKED)
    then newRank.value
    else oldRank
  }

  /**
   * The correction changes one case only: a hero already ranked asking
   * for rank nextRank itself, which it now refuses, keeping the old rank.
   */
  lemma FixChangesOnlyBound(oldRank: int, newRank: Option<int>, nextRank: int)
    ensures ResolveRankFixed(oldRank, newRank, nextRank) != ResolveRank(oldRank, newRank, nextRank) <==>
      oldRank != UNRANKED && newRank == Some(nextRank) && 0 < nextRank && nextRank != UNRANKED &&
      nextRank != oldRank
    ensures ResolveRankFixed(oldRank, newRank, nextRank) != ResolveRank(oldRank, newRank, nextRank) ==>
      ResolveRankFixed(oldRank, newRank, nextRank) == oldRank &&
      ResolveRank(oldRank, newRank, nextRank) == nextRank
  {
  }

  /** `Edited` with the rank resolved by `ResolveRankFixed`. */
  function EditedFixed(s: Store, oldFile: HeroFile, newName: Option<string>, newAlias: Option<string>,
                       newQuirk: Option<string>, newRank: Option<int>, nextRank: int): (r: Store)
    ensures r.Keys == s.Keys + {oldFile.reference}
    ensures r[oldFile.reference] ==
      NewFile(oldFile, newName, newAlias, newQuirk, ResolveRankFixed(oldFile.rank, newRank, nextRank))
  {
    var f := NewFile(oldFile, newName, newAlias, newQuirk, ResolveRankFixed(oldFile.rank, newRank, nextRank));
    EditShift(s, oldFile.rank, f.rank)[f.reference := f]
  }

  /**
   * The index after a delete: the record at the file's reference is gone
   * and the ranks at or above the file's rank move down by one.
   */
  function Deleted(s: Store, file: HeroFile): (r: Store)
    ensures r.Keys == s.Keys - {file.reference}
    ensures !IsRanked(file) ==> r == s - {file.reference}
    ensures forall k :: k in r ==> r[k] == s[k].(rank := r[k].rank)
  {
    Shifted(s - {file.reference}, file.rank, "down")
  }

  /** The index after a valid add: one new unranked record, nothing else changed. */
  function Added(s: Store, reference: string, heroID: int, name: string, alias: string, quirk: string): (r: Store)
    ensures r.Keys == s.Keys + {reference}
    ensures r[reference] == HeroFile(reference, heroID, name, alias, quirk, UNRANKED)
    ensures forall k :: k in s && k != reference ==> r[k] == s[k]
  {
    s[reference := HeroFile(reference, heroID, name, alias, quirk, UNRANKED)]
  }

  /** The stored fields of a hit, as the index holds them. */
  datatype HeroSource = HeroSource(heroID: int, name: string, alias: string, quirk: string, rank: int)

  /** A hit of a search: its document identifier (`_id`) and stored fields (`_source`). */
  datatype ESHeroFile = ESHeroFile(id: string, source: HeroSource)

  /** The document body an edit or an add writes for a record. */
  function IndexBody(h: HeroFile): (body: HeroSource)
    ensures body.heroID == h.heroID && body.name == h.name && body.alias == h.alias
    ensures body.quirk == h.quirk && body.rank == h.rank
  {
    HeroSource(h.heroID, h.name, h.alias, h.quirk, h.rank)
  }

  /** A hit as a hero record; nothing of the hit is lost. */
  function ESHeroFile2HeroFile(eshf: ESHeroFile): (h: HeroFile)
    ensures ESHeroFile(h.reference, IndexBody(h)) == eshf
  {
    HeroFile(eshf.id, eshf.source.heroID, eshf.source.name, eshf.source.alias, eshf.source.quirk, eshf.source.rank)
  }

  /** Reading back the document written for a record gives the record. */
  lemma ReadBackIndexed(h: HeroFile)
    ensures ESHeroFile2HeroFile(ESHeroFile(h.reference, IndexBody(h))) == h
  {
  }
}
