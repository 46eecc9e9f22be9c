/**
 * The edit form: what its submit passes to the service's editHero.
 */
module HeroEdit {
  import opened Optional
  import opened HeroData
  import opened HeroStore
  import opened HeroView

  /** The arguments of the one editHero call a submit makes. */
  datatype EditCall = EditCall(oldFile: HeroFile, newName: Option<string>, newAlias: Option<string>,
                               newQuirk: Option<string>, newRank: Option<int>)

  /**
   * Normalises the form inputs for the selected hero: an empty field
   * becomes UNKNOWN, an unchanged alias becomes null, an empty or
   * non-numeric rank becomes UNRANKED. The inputs are not trimmed.
   */
  function Submit(hero: HeroFile, name: string, alias: string, quirk: string, rank: string,
                  parse: NumberParser): (call: EditCall)
    ensures call.oldFile == hero
    ensures name != "" ==> call.newName == Some(name)
    ensures name == "" ==> call.newName == Some(UNKNOWN)
    ensures quirk != "" ==> call.newQuirk == Some(quirk)
    ensures quirk == "" ==> call.newQuirk == Some(UNKNOWN)
    ensures alias == "" ==> call.newAlias == Some(UNKNOWN)
    ensures alias != "" && alias == hero.alias ==> call.newAlias == None
    ensures alias != "" && alias != hero.alias ==> call.newAlias == Some(alias)
    ensures rank != "" && parse(rank).Some? ==> call.newRank == parse(rank)
    ensures rank == "" || parse(rank).None? ==> call.newRank == Some(UNRANKED)
  {
    var r := if rank != "" && parse(rank).Some? then parse(rank).value else UNRANKED;
    var n := if name != "" then name else UNKNOWN;
    var a := if alias != "" then (if alias != hero.alias then Some(alias) else None) else Some(UNKNOWN);
    var q := if quirk != "" then quirk else UNKNOWN;
    EditCall(hero, Some(n), a, Some(q), Some(r))
  }

  /**
   * What a submitted edit stores for the hero, when the service accepts
   * it: the name, alias and quirk as typed, UNKNOWN for an empty one (the
   * old value is never kept), and UNRANKED for an empty or non-numeric rank.
   * Re-submitting the hero's own alias skips the uniqueness check.
   */
  lemma SubmitStores(s: Store, hero: HeroFile, name: string, alias: string, quirk: string, rank: string,
                     parse: NumberParser, nextRank: int)
    ensures var c := Submit(hero, name, alias, quirk, rank, parse);
      && (alias == hero.alias && alias != "" ==> EditAccepted(s, c.newAlias))
      && var f := Edited(s, c.oldFile, c.newName, c.newAlias, c.newQuirk, c.newRank, nextRank)[hero.reference];
      && f.reference == hero.reference && f.heroID == hero.heroID
      && f.name == (if name != "" then name else UNKNOWN)
      && f.alias == (if alias != "" then alias else UNKNOWN)
      && f.quirk == (if quirk != "" then quirk else UNKNOWN)
      && (rank == "" || parse(rank).None? ==> f.rank == UNRANKED)
  {
  }
}
