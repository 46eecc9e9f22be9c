/**
 * The hero data service: an index of hero records with its counters, and
 * the sort, page and search state of the list view.
 */
module HeroService {
  import opened Optional
  import opened HeroData
  import opened SimpleQuery
  import opened HeroStore
  import opened HeroView

  class ESHeroService {
    /** The hero index, by reference. */
    var store: Store
    /** Metadata "nextID": the license number the next added hero gets. */
    var nextID: int
    /** Metadata "nextRank": the largest rank an edit accepts. Read here, never written. */
    var nextRank: int

    var page: int
    var size: int
    var sort: string
    var sortDir: string
    var searchFor: string

    /** The view state stays usable: a page from 1 on, a positive page size, a known direction. */
    ghost predicate Valid()
      reads this
    {
      page >= 1 && size > 0 && (sortDir == "asc" || sortDir == "desc")
    }

    /** A service over an existing index and its metadata, showing page 1 by rank. */
    constructor (heroes: Store, firstID: int, rankBound: int)
      ensures Valid()
      ensures store == heroes && nextID == firstID && nextRank == rankBound
      ensures page == 1 && size == 10 && sort == "rank" && sortDir == "asc" && searchFor == ""
    {
      store := heroes;
      nextID := firstID;
      nextRank := rankBound;
      page := 1;
      size := 10;
      sort := "rank";
      sortDir := "asc";
      searchFor := "";
    }

    /** A click on a sort field. */
    method UpdateSort(clicked: string)
      requires Valid()
      modifies this`sort, this`sortDir
      ensures Valid()
      ensures (sort, sortDir) == SortAfterClick(old(sort), old(sortDir), clicked)
    {
      if sort == clicked {
        sortDir := if sortDir == "asc" then "desc" else "asc";
      } else {
        sortDir := "asc";
        sort := clicked;
      }
    }

    /** "Next page", given the length of the list now shown. */
    method PageUp(currentListSize: int)
      requires Valid()
      modifies this`page
      ensures Valid()
      ensures page == PageAfterUp(old(page), size, currentListSize)
    {
      if currentListSize >= size {
        page := page + 1;
      }
    }

    /** "Previous page". */
    method PageDown()
      requires Valid()
      modifies this`page
      ensures Valid()
      ensures page == PageAfterDown(old(page))
    {
      if page > 1 {
        page := page - 1;
      }
    }

    /** A new search: the trimmed term, from page 1. */
    method SearchTerm(value: string)
      requires Valid()
      modifies this`searchFor, this`page
      ensures Valid()
      ensures searchFor == Trim(value) && page == 1
    {
      searchFor := Trim(value);
      page := 1;
    }

    /** The should-match clauses of a search, pushed one field at a time. */
    static method ShouldClauses(term: string, parse: NumberParser) returns (clauses: seq<Term>)
      ensures clauses == SearchClauses(term, parse)
    {
      clauses := [];
      if term != "" {
        clauses := clauses + [Field("alias", term)];
        clauses := clauses + [Field("name", term)];
        clauses := clauses + [Field("quirk", term)];
        if parse(term).Some? {
          clauses := clauses + [Field("rank", term)];
          clauses := clauses + [Field("heroID", term)];
        }
      }
    }

    /**
     * The query for the current page: hits from (page - 1) * size on, size
     * of them, by the sort field and direction, then by score; the search
     * term as should-match clauses.
     */
    method PageQuery(parse: NumberParser) returns (query: Query)
      ensures query.from == Offset(page, size) && query.size == size
      ensures query.sort == [By(sort, sortDir), Score]
      ensures query.query == Bool([], Wrapped(SearchClauses(searchFor, parse)), [])
    {
      var shouldMatch := ShouldClauses(searchFor, parse);
      var builder := new QueryBuilder();
      builder.FromHit((page - 1) * size);
      builder.NumHits(size);
      builder.SortHits(sort, sortDir);
      builder.ShouldMatch(shouldMatch);
      query := builder.Build();
    }

    /** The hits of a search as hero records, in the order returned. */
    static method HitsToHeroes(hits: seq<ESHeroFile>) returns (heroes: seq<HeroFile>)
      ensures |heroes| == |hits|
      ensures forall i :: 0 <= i < |hits| ==> heroes[i] == ESHeroFile2HeroFile(hits[i])
    {
      heroes := [];
      for i := 0 to |hits|
        invariant |heroes| == i
        invariant forall j :: 0 <= j < i ==> heroes[j] == ESHeroFile2HeroFile(hits[j])
      {
        heroes := heroes + [ESHeroFile2HeroFile(hits[i])];
      }
    }

    /**
     * The current page: the query sent for it, and the hits that `search`
     * returns for that query, as hero records.
     */
    method GetHeroPage(parse: NumberParser, search: Query -> seq<ESHeroFile>) returns (query: Query, heroes: seq<HeroFile>)
      ensures query.from == Offset(page, size) && query.size == size
      ensures query.sort == [By(sort, sortDir), Score]
      ensures query.query == Bool([], Wrapped(SearchClauses(searchFor, parse)), [])
      ensures |heroes| == |search(query)|
      ensures forall i :: 0 <= i < |heroes| ==> heroes[i] == ESHeroFile2HeroFile(search(query)[i])
    {
      query := PageQuery(parse);
      heroes := HitsToHeroes(search(query));
    }

    /**
     * Adds a hero under the reference the index assigns, if its alias is
     * valid: the next license number, then one new unranked record. The
     * index generates a reference no stored document has.
     */
    method AddHero(name: string, alias: string, quirk: string, reference: string)
      requires reference !in store
      modifies this`store, this`nextID
      ensures ValidHeroData(old(store), alias) ==>
        store == Added(old(store), reference, old(nextID), name, alias, quirk) && nextID == old(nextID) + 1
      ensures !ValidHeroData(old(store), alias) ==> store == old(store) && nextID == old(nextID)
    {
      var valid := ValidHeroData(store, alias);
      if valid {
        var id := nextID;
        nextID := id + 1;
        store := store[reference := HeroFile(reference, id, name, alias, quirk, UNRANKED)];
      }
    }

    /** Deletes the record at the file's reference, then closes the file's rank. */
    method DelHero(file: HeroFile)
      modifies this`store
      ensures store == Deleted(old(store), file)
    {
      store := store - {file.reference};
      ShiftRanksBelow(file.rank, "down");
    }

    /**
     * Edits a hero. A truthy alias must be valid, or nothing is written and
     * the result is false. Otherwise the new record is resolved, the ranks
     * are shifted by the transition policy, and the record is stored.
     */
    method EditHero(oldFile: HeroFile, newName: Option<string>, newAlias: Option<string>,
                    newQuirk: Option<string>, newRank: Option<int>) returns (accepted: bool)
      modifies this`store
      ensures accepted == EditAccepted(old(store), newAlias)
      ensures accepted ==> store == Edited(old(store), oldFile, newName, newAlias, newQuirk, newRank, nextRank)
      ensures !accepted ==> store == old(store)
    {
      if Given(newAlias) {
        var valid := ValidHeroData(store, newAlias.value);
        if !valid {
          return false;
        }
      }
      var newFile := NewFile(oldFile, newName, newAlias, newQuirk, ResolveRank(oldFile.rank, newRank, nextRank));
      if newFile.rank != oldFile.rank {
        if newFile.rank != UNRANKED {
          if oldFile.rank != UNRANKED {
            ShiftRanksBelow(oldFile.rank, "down");
            ShiftRanksBelow(newFile.rank, "up");
          } else {
            ShiftRanksBelow(newFile.rank, "up");
          }
        } else {
          ShiftRanksBelow(oldFile.rank, "down");
        }
      }
      store := store[newFile.reference := newFile];
      accepted := true;
    }

    /**
     * Moves by one, in the given direction, every ranked record whose rank
     * is at least `rank`, one record at a time; nothing when `rank` is the
     * sentinel.
     */
    method ShiftRanksBelow(rank: int, direction: string)
      modifies this`store
      ensures store == Shifted(old(store), rank, direction)
    {
      if rank != UNRANKED {
        ghost var before := store;
        var todo := store.Keys;
        while todo != {}
          invariant todo <= before.Keys && store.Keys == before.Keys
          invariant forall k :: k in before && k !in todo ==> store[k] == Shifted(before, rank, direction)[k]
          invariant forall k :: k in todo ==> store[k] == before[k]
          decreases todo
        {
          var k :| k in todo;
          if IsRanked(store[k]) && store[k].rank >= rank {
            store := store[k := store[k].(rank := store[k].rank + Delta(direction))];
          }
          todo := todo - {k};
        }
        assert store == Shifted(before, rank, direction);
      }
    }
  }
}
