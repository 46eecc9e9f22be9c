/**
 * The invariants the hero record documents (unique reference, license
 * number and alias; ranks dense from 1), and the proofs that a valid add,
 * a delete and an edit with the corrected rank bound keep them.
 */
module Registry {
  import opened Optional
  import opened HeroData
  import opened HeroStore
  import opened RankDensity

  /** Every license number handed out so far is below the counter. */
  ghost predicate IdsBelow(s: Store, nextID: int) {
    forall k :: k in s ==> s[k].heroID < nextID
  }

  /** All documented invariants, with n ranked records. */
  ghost predicate Consistent(s: Store, nextID: int, n: int) {
    && KeyedByReference(s)
    && UniqueAliases(s)
    && UniqueHeroIds(s)
    && IdsBelow(s, nextID)
    && Dense(s, n)
  }

  /** A valid add under a fresh reference keeps every invariant and the ranking. */
  lemma AddKeepsConsistent(s: Store, nextID: int, n: int, reference: string, name: string, alias: string, quirk: string)
    requires Consistent(s, nextID, n)
    requires reference !in s && ValidHeroData(s, alias)
    ensures Consistent(Added(s, reference, nextID, name, alias, quirk), nextID + 1, n)
  {
    var f := HeroFile(reference, nextID, name, alias, quirk, UNRANKED);
    AddUnranked(s, n, reference, f);
  }

  /** A delete of a stored record keeps every invariant; a ranked delete frees one rank. */
  lemma DeleteKeepsConsistent(s: Store, nextID: int, n: int, file: HeroFile)
    requires Consistent(s, nextID, n)
    requires file.reference in s && s[file.reference] == file
    ensures Consistent(Deleted(s, file), nextID, if IsRanked(file) then n - 1 else n)
  {
    DeleteKeepsDense(s, n, file);
  }

  /**
   * A store that changes other records only in rank, and rewrites one
   * record keeping its reference and license number and taking an alias
   * that is its own, UNKNOWN or unused, keeps every identity invariant.
   */
  lemma RerankKeepsIdentity(s: Store, r: Store, nextID: int, ref: string)
    requires KeyedByReference(s) && UniqueAliases(s) && UniqueHeroIds(s) && IdsBelow(s, nextID)
    requires ref in s && r.Keys == s.Keys
    requires r[ref].reference == ref && r[ref].heroID == s[ref].heroID
    requires forall k :: k in r && k != ref ==> r[k] == s[k].(rank := r[k].rank)
    requires r[ref].alias == s[ref].alias || r[ref].alias == UNKNOWN ||
             forall k :: k in s ==> s[k].alias != r[ref].alias
    ensures KeyedByReference(r) && UniqueAliases(r) && UniqueHeroIds(r) && IdsBelow(r, nextID)
  {
  }

  /**
   * An accepted edit of a stored record, with the corrected rank bound and
   * nextRank = n + 1, keeps every invariant.
   */
  lemma EditFixedKeepsConsistent(s: Store, nextID: int, n: int, oldFile: HeroFile, newName: Option<string>,
                                 newAlias: Option<string>, newQuirk: Option<string>, newRank: Option<int>)
    requires Consistent(s, nextID, n)
    requires oldFile.reference in s && s[oldFile.reference] == oldFile
    requires EditAccepted(s, newAlias)
    ensures Consistent(EditedFixed(s, oldFile, newName, newAlias, newQuirk, newRank, n + 1), nextID,
                       RankedAfterEdit(n, oldFile.rank, ResolveRankFixed(oldFile.rank, newRank, n + 1)))
  {
    EditFixedKeepsDense(s, n, oldFile, newName, newAlias, newQuirk, newRank);
    var r := EditedFixed(s, oldFile, newName, newAlias, newQuirk, newRank, n + 1);
    var f := r[oldFile.reference];
    var e := EditShift(s, oldFile.rank, f.rank);
    assert r == e[oldFile.reference := f];
    forall k | k in r && k != oldFile.reference
      ensures r[k] == s[k].(rank := r[k].rank)
    {
      assert r[k] == e[k];
    }
    RerankKeepsIdentity(s, r, nextID, oldFile.reference);
  }
}
