/**
 * The hero record and the sentinel values that stand in for missing data.
 */
module HeroData {

  /** The value of an unknown legal name, alias or quirk. */
  const UNKNOWN: string := "???"

  /** The value of a missing license number. */
  const UNLICENSED: int := -1

  /**
   * The value of a missing rank. It is a positive number, so every rule
   * about genuine ranks has to exclude it explicitly.
   */
  const UNRANKED: int := 1000

  /**
   * One hero record. Every field is read-only, so an edit never changes a
   * record: it builds a new one. The datatype constructor stores each
   * argument in the field of the same name.
   */
  datatype HeroFile = HeroFile(
    reference: string,  // storage identifier
    heroID: int,        // license number, or UNLICENSED
    name: string,       // legal name, or UNKNOWN
    alias: string,      // hero name, or UNKNOWN
    quirk: string,      // quirk name, or UNKNOWN
    rank: int)          // place in the ranking, or UNRANKED

  /** The hero index: every stored record, by reference. */
  type Store = map<string, HeroFile>

  /** A record takes part in the ranking unless its rank is the sentinel. */
  predicate IsRanked(h: HeroFile) {
    h.rank != UNRANKED
  }

  /**
   * The reference invariant holds by construction: in an index keyed by
   * reference, no two stored records share a reference.
   */
  lemma KeyedMeansUniqueReferences(s: Store)
    requires KeyedByReference(s)
    ensures forall k1, k2 :: k1 in s && k2 in s && s[k1].reference == s[k2].reference ==> k1 == k2
  {
  }

  /**
   * The sentinels are not values: any number of records may be unknown,
   * unlicensed and unranked at once without breaking uniqueness.
   */
  lemma SentinelsNeverClash(s: Store)
    requires forall k :: k in s ==> s[k].alias == UNKNOWN && s[k].heroID == UNLICENSED && !IsRanked(s[k])
    ensures UniqueAliases(s) && UniqueHeroIds(s) && UniqueRanks(s)
  {
  }

  /** Each record is stored under its own reference. */
  ghost predicate KeyedByReference(s: Store) {
    forall k :: k in s ==> s[k].reference == k
  }

  /** No two records share an alias other than UNKNOWN. */
  ghost predicate UniqueAliases(s: Store) {
    forall k1, k2 :: k1 in s && k2 in s && s[k1].alias == s[k2].alias && s[k1].alias != UNKNOWN ==> k1 == k2
  }

  /** No two records share a license number other than UNLICENSED. */
  ghost predicate UniqueHeroIds(s: Store) {
    forall k1, k2 :: k1 in s && k2 in s && s[k1].heroID == s[k2].heroID && s[k1].heroID != UNLICENSED ==> k1 == k2
  }

  /** No two ranked records share a rank. */
  ghost predicate UniqueRanks(s: Store) {
    forall k1, k2 :: k1 in s && k2 in s && IsRanked(s[k1]) && IsRanked(s[k2]) && s[k1].rank == s[k2].rank ==> k1 == k2
  }
}
