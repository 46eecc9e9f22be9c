/**
 * The add form: what its submit passes to the service's addHero.
 */
module HeroAdd {
  import opened HeroData
  import opened HeroStore

  /** The arguments of the one addHero call a submit makes, in order. */
  datatype AddCall = AddCall(name: string, alias: string, quirk: string)

  /** Normalises the form inputs: an empty field becomes UNKNOWN; nothing is trimmed. */
  function Submit(name: string, alias: string, quirk: string): (call: AddCall)
    ensures call.name != "" && call.alias != "" && call.quirk != ""
    ensures name != "" ==> call.name == name
    ensures alias != "" ==> call.alias == alias
    ensures quirk != "" ==> call.quirk == quirk
    ensures name == "" ==> call.name == UNKNOWN
    ensures alias == "" ==> call.alias == UNKNOWN
    ensures quirk == "" ==> call.quirk == UNKNOWN
  {
    var n := if name != "" then name else UNKNOWN;
    var a := if alias != "" then alias else UNKNOWN;
    var q := if quirk != "" then quirk else UNKNOWN;
    AddCall(n, a, q)
  }

  /**
   * A form left without an alias is always added; whatever is added from
   * the form is an unranked record with no empty field.
   */
  lemma SubmitStores(s: Store, reference: string, heroID: int, name: string, alias: string, quirk: string)
    ensures var c := Submit(name, alias, quirk);
      && (alias == "" ==> ValidHeroData(s, c.alias))
      && var f := Added(s, reference, heroID, c.name, c.alias, c.quirk)[reference];
      && f.name != "" && f.alias != "" && f.quirk != "" && f.rank == UNRANKED
  {
  }
}
