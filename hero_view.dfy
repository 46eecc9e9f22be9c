/**
 * The view state of the hero data service (sort field and direction,
 * page, search term) and the page query built from it.
 */
module HeroView {
  import opened Optional
  import opened SimpleQuery

  /** `Number` followed by `isNaN`: None for text that is not a number. */
  type NumberParser = string -> Option<int>

  /** The characters JavaScript's `trim` removes: white space and line terminators. */
  predicate IsWhitespace(c: char) {
    var x := c as int;
    || x == 0x09 || x == 0x0A || x == 0x0B || x == 0x0C || x == 0x0D || x == 0x20
    || x == 0xA0 || x == 0x1680 || (0x2000 <= x <= 0x200A) || x == 0x2028 || x == 0x2029
    || x == 0x202F || x == 0x205F || x == 0x3000 || x == 0xFEFF
  }

  /** `s` without its leading white space. */
  function TrimStart(s: string): (r: string)
    ensures |r| <= |s| && r == s[|s| - |r|..]
    ensures forall i :: 0 <= i < |s| - |r| ==> IsWhitespace(s[i])
    ensures r == [] || !IsWhitespace(r[0])
  {
    if s != [] && IsWhitespace(s[0]) then TrimStart(s[1..]) else s
  }

  /** `s` without its trailing white space. */
  function TrimEnd(s: string): (r: string)
    ensures |r| <= |s| && r == s[..|r|]
    ensures forall i :: |r| <= i < |s| ==> IsWhitespace(s[i])
    ensures r == [] || !IsWhitespace(r[|r| - 1])
  {
    if s != [] && IsWhitespace(s[|s| - 1]) then TrimEnd(s[..|s| - 1]) else s
  }

  /** `r` is the slice of `s` at `i`, and all of `s` around it is white space. */
  ghost predicate TrimmedAt(s: string, r: string, i: int) {
    && 0 <= i && i + |r| <= |s| && r == s[i..i + |r|]
    && (forall j :: 0 <= j < i ==> IsWhitespace(s[j]))
    && (forall j :: i + |r| <= j < |s| ==> IsWhitespace(s[j]))
  }

  /** JavaScript's `trim`: the slice of `s` between its leading and trailing white space. */
  function Trim(s: string): (r: string)
    ensures exists i :: TrimmedAt(s, r, i)
    ensures r == [] || (!IsWhitespace(r[0]) && !IsWhitespace(r[|r| - 1]))
  {
    var a := TrimStart(s);
    var r := TrimEnd(a);
    assert TrimmedAt(s, r, |s| - |a|);
    r
  }

  /** Trimming a trimmed term changes nothing. */
  lemma TrimIdempotent(s: string)
    ensures Trim(Trim(s)) == Trim(s)
  {
    var r := Trim(s);
    assert TrimStart(r) == r;
    assert TrimEnd(r) == r;
  }

  /**
   * A click on a sort field: the current field flips its direction, any
   * other field becomes the sort field, ascending.
   */
  function SortAfterClick(sort: string, sortDir: string, clicked: string): (r: (string, string))
    ensures r.0 == clicked
    ensures r.1 == "asc" || r.1 == "desc"
    ensures clicked == sort && sortDir == "asc" ==> r.1 == "desc"
    ensures clicked == sort && sortDir != "asc" ==> r.1 == "asc"
    ensures clicked != sort ==> r.1 == "asc"
  {
    if sort == clicked then (sort, if sortDir == "asc" then "desc" else "asc")
    else (clicked, "asc")
  }

  /** Clicking the current sort field twice restores its direction. */
  lemma ClickTwiceRestores(sort: string, sortDir: string)
    requires sortDir == "asc" || sortDir == "desc"
    ensures var once := SortAfterClick(sort, sortDir, sort);
      SortAfterClick(once.0, once.1, sort) == (sort, sortDir)
  {
  }

  /** The page after "next": one further only when the current list filled the page. */
  function PageAfterUp(page: int, size: int, currentListSize: int): (r: int)
    ensures r == page || r == page + 1
    ensures r == page + 1 <==> currentListSize >= size
  {
    if currentListSize >= size then page + 1 else page
  }

  /** The page after "previous": one back, but never below page 1. */
  function PageAfterDown(page: int): (r: int)
    ensures page > 1 ==> r == page - 1
    ensures page <= 1 ==> r == page
  {
    if page > 1 then page - 1 else page
  }

  /** The index of the first hit of a page. */
  function Offset(page: int, size: int): int {
    (page - 1) * size
  }

  /**
   * Paging keeps the page at 1 or more; "next" advances the first hit by
   * one page size, and "previous" then returns to the same page.
   */
  lemma PagingStaysInRange(page: int, size: int, currentListSize: int)
    requires page >= 1 && size > 0
    ensures PageAfterUp(page, size, currentListSize) >= 1 && PageAfterDown(page) >= 1
    ensures Offset(page, size) >= 0
    ensures currentListSize >= size ==>
      Offset(PageAfterUp(page, size, currentListSize), size) == Offset(page, size) + size &&
      PageAfterDown(PageAfterUp(page, size, currentListSize)) == page
  {
    assert Offset(page + 1, size) == page * size == (page - 1) * size + size;
  }

  /** The fields a search term is matched against, in order. */
  const SearchFields: seq<string> := ["alias", "name", "quirk", "rank", "heroID"]

  /**
   * The clauses a search should match: none for an empty term; otherwise
   * the term on alias, name and quirk, and also on rank and heroID when
   * the term is a number.
   */
  function SearchClauses(term: string, parse: NumberParser): (clauses: seq<Term>)
    ensures term == "" ==> clauses == []
    ensures term != "" && parse(term).None? ==> |clauses| == 3
    ensures term != "" && parse(term).Some? ==> |clauses| == 5
    ensures forall i :: 0 <= i < |clauses| ==> clauses[i] == Field(SearchFields[i], term)
  {
    if term == "" then []
    else [Field("alias", term), Field("name", term), Field("quirk", term)] +
         (if parse(term).Some? then [Field("rank", term), Field("heroID", term)] else [])
  }
}
