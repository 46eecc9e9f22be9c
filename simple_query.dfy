/**
 * A simple search query and the builder that assembles it: clause lists
 * for a bool query, sort criteria, and the window of hits to return.
 */
module SimpleQuery {

  /** A query clause: a field/value pair, or a clause wrapped as `{match: clause}`. */
  datatype Term = Field(key: string, value: string) | Match(clause: Term)

  /** A sort criterion: the relevance score `"_score"`, or `{field: order}`. */
  datatype SortKey = Score | By(field: string, order: string)

  /** The `bool` part of a query; `mustNot` is sent under the key `must_not`. */
  datatype BoolQuery = Bool(must: seq<Term>, should: seq<Term>, mustNot: seq<Term>)

  /** A built query: hits [from, from + size) of those matching `query`, ordered by `sort`. */
  datatype Query = Query(from: int, size: int, query: BoolQuery, sort: seq<SortKey>)

  /** How many `{match: …}` layers surround a field/value pair. */
  function Depth(t: Term): nat {
    match t
    case Field(_, _) => 0
    case Match(c) => 1 + Depth(c)
  }

  /** Every clause wrapped as `{match: clause}`, in the same order. */
  function Wrapped(terms: seq<Term>): (r: seq<Term>)
    ensures |r| == |terms|
    ensures forall i :: 0 <= i < |terms| ==> r[i] == Match(terms[i])
  {
    if terms == [] then [] else [Match(terms[0])] + Wrapped(terms[1..])
  }

  /** Removes one level of `{match: …}` wrapping, where there is one. */
  function Unwrapped(terms: seq<Term>): (r: seq<Term>)
    ensures |r| == |terms|
  {
    if terms == [] then []
    else [if terms[0].Match? then terms[0].clause else terms[0]] + Unwrapped(terms[1..])
  }

  /** Wrapping loses nothing: unwrapping gives the clauses back. */
  lemma {:induction false} UnwrapWrapped(terms: seq<Term>)
    ensures Unwrapped(Wrapped(terms)) == terms
  {
    if terms != [] {
      UnwrapWrapped(terms[1..]);
      assert Wrapped(terms)[1..] == Wrapped(terms[1..]);
    }
  }

  /** Wrapping twice is not wrapping once: the builder's `build` is not idempotent. */
  lemma WrapNotIdempotent(terms: seq<Term>)
    requires terms != []
    ensures Wrapped(Wrapped(terms)) != Wrapped(terms)
  {
    var t := terms[0];
    assert Wrapped(Wrapped(terms))[0] == Match(Match(t));
    assert Wrapped(terms)[0] == Match(t);
    assert Depth(Match(t)) != Depth(t);
  }

  /**
   * The builder. Its lists are replaced or extended by each method;
   * `build` rewrites the three clause lists in place.
   */
  class QueryBuilder {
    var from: int
    var size: int
    var must: seq<Term>
    var should: seq<Term>
    var mustNot: seq<Term>
    var sort: seq<SortKey>

    /** The relevance score stays the last sort criterion. */
    ghost predicate Valid()
      reads this`sort
    {
      |sort| > 0 && sort[|sort| - 1] == Score
    }

    /** A builder that asks for the first ten hits of everything, by score. */
    constructor ()
      ensures Valid()
      ensures from == 0 && size == 10
      ensures must == [] && should == [] && mustNot == []
      ensures sort == [Score]
    {
      from := 0;
      size := 10;
      must := [];
      should := [];
      mustNot := [];
      sort := [Score];
    }

    /** Appends clauses every hit must match. */
    method MustMatch(fields: seq<Term>)
      modifies this`must
      ensures must == old(must) + fields
    {
      must := must + fields;
    }

    /** Appends clauses a hit should match. */
    method ShouldMatch(fields: seq<Term>)
      modifies this`should
      ensures should == old(should) + fields
    {
      should := should + fields;
    }

    /** Appends clauses no hit may match. */
    method MustNotMatch(fields: seq<Term>)
      modifies this`mustNot
      ensures mustNot == old(mustNot) + fields
    {
      mustNot := mustNot + fields;
    }

    /** Adds a sort criterion ahead of all earlier ones. */
    method SortHits(field: string, order: string)
      requires Valid()
      modifies this`sort
      ensures Valid()
      ensures sort == [By(field, order)] + old(sort)
    {
      sort := [By(field, order)] + sort;
    }

    /** Sets the index of the first hit. */
    method FromHit(start: int)
      modifies this`from
      ensures from == start
    {
      from := start;
    }

    /** Sets the number of hits. */
    method NumHits(num: int)
      modifies this`size
      ensures size == num
    {
      size := num;
    }

    /** Wraps each clause as `{match: clause}`, one slot at a time. */
    static method MatchWrap(terms: seq<Term>) returns (wrapped: seq<Term>)
      ensures wrapped == Wrapped(terms)
    {
      wrapped := terms;
      for i := 0 to |terms|
        invariant |wrapped| == |terms|
        invariant forall j :: 0 <= j < i ==> wrapped[j] == Match(terms[j])
        invariant forall j :: i <= j < |terms| ==> wrapped[j] == terms[j]
      {
        wrapped := wrapped[i := Match(wrapped[i])];
      }
    }

    /**
     * Wraps the three clause lists of the builder itself, then returns a
     * query carrying the window, the lists and the sort criteria.
     */
    method Build() returns (q: Query)
      modifies this`must, this`should, this`mustNot
      ensures must == Wrapped(old(must))
      ensures should == Wrapped(old(should))
      ensures mustNot == Wrapped(old(mustNot))
      ensures q == Query(from, size, Bool(must, should, mustNot), sort)
    {
      must := MatchWrap(must);
      should := MatchWrap(should);
      mustNot := MatchWrap(mustNot);
      q := Query(from, size, Bool(must, should, mustNot), sort);
    }
  }

  /**
   * Building twice from one builder wraps its clauses twice. The first
   * query is a value taken at the first build, so the second build does
   * not reach it.
   */
  method BuildTwice(clause: Term) returns (first: Query, second: Query)
    ensures first.query.should == [Match(clause)]
    ensures second.query.should == [Match(Match(clause))]
    ensures first != second
  {
    var builder := new QueryBuilder();
    builder.ShouldMatch([clause]);
    first := builder.Build();
    second := builder.Build();
    assert Depth(Match(clause)) != Depth(Match(Match(clause)));
  }
}
