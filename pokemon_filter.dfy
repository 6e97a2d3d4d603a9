/**
 * The catalog record and the client-side filter of the list page: a record is shown when
 * its lower-cased name contains the lower-cased search text and, if a type is selected,
 * its type list contains that exact type name.
 */
module PokemonFilter {
  import opened Text

  /** One catalog record as returned by the listing endpoint. */
  datatype Pokemon = Pokemon(id: int, pokedexId: int, name: string, image: string, types: seq<string>)

  /** The name test: the lower-cased search text occurs somewhere in the lower-cased name. */
  predicate MatchesName(p: Pokemon, search: string)
    ensures MatchesName(p, search) ==> exists i :: OccursAt(ToLower(p.name), ToLower(search), i)
    ensures (exists i :: OccursAt(ToLower(p.name), ToLower(search), i)) ==> MatchesName(p, search)
  {
    IncludesIffOccurs(ToLower(p.name), ToLower(search));
    Includes(ToLower(p.name), ToLower(search))
  }

  /**
   * The type test: with no type selected (the empty string) every record passes; otherwise
   * some entry of the record's type list must equal the selected type exactly.
   */
  predicate MatchesType(p: Pokemon, typeFilter: string) {
    typeFilter == "" || typeFilter in p.types
  }

  /**
   * A record is shown when it passes both tests; with no search text and no selected type,
   * every record is shown.
   */
  predicate Keep(p: Pokemon, search: string, typeFilter: string)
    ensures Keep(p, search, typeFilter) ==>
      (exists i :: OccursAt(ToLower(p.name), ToLower(search), i)) && MatchesType(p, typeFilter)
    ensures (exists i :: OccursAt(ToLower(p.name), ToLower(search), i)) && MatchesType(p, typeFilter) ==>
      Keep(p, search, typeFilter)
    ensures search == "" && typeFilter == "" ==> Keep(p, search, typeFilter)
  {
    IncludesEmptyNeedle(ToLower(p.name));
    MatchesName(p, search) && MatchesType(p, typeFilter)
  }

  /** The records that pass both tests, in their original order. */
  function Filter(ps: seq<Pokemon>, search: string, typeFilter: string): (r: seq<Pokemon>)
    ensures |r| <= |ps|
    ensures forall p :: p in r <==> p in ps && Keep(p, search, typeFilter)
  {
    if ps == [] then []
    else if Keep(ps[0], search, typeFilter) then [ps[0]] + Filter(ps[1..], search, typeFilter)
    else Filter(ps[1..], search, typeFilter)
  }

  /**
   * idx picks r out of s in increasing order of position: r[k] is s[idx[k]] and the
   * positions strictly increase, so r is a subsequence of s.
   */
  ghost predicate SelectsInOrder<T>(r: seq<T>, s: seq<T>, idx: seq<nat>) {
    && |idx| == |r|
    && (forall k :: 0 <= k < |idx| ==> idx[k] < |s| && s[idx[k]] == r[k])
    && (forall k, l :: 0 <= k < l < |idx| ==> idx[k] < idx[l])
  }

  /** Every position moved one place to the right. */
  function Shift(idx: seq<nat>): seq<nat> {
    seq(|idx|, k requires 0 <= k < |idx| => idx[k] + 1)
  }

  /**
   * The filtered list is a subsequence of the loaded list that keeps its order, and the
   * positions it picks are exactly the positions of records that pass the filter.
   */
  lemma {:induction false} FilterSelectsKeptPositions(ps: seq<Pokemon>, search: string, typeFilter: string)
    returns (idx: seq<nat>)
    ensures SelectsInOrder(Filter(ps, search, typeFilter), ps, idx)
    ensures forall j :: 0 <= j < |ps| ==> (j in idx <==> Keep(ps[j], search, typeFilter))
  {
    if ps == [] {
      idx := [];
    } else {
      var rest := FilterSelectsKeptPositions(ps[1..], search, typeFilter);
      var kept := Keep(ps[0], search, typeFilter);
      idx := ExtendSelection(ps, kept, Filter(ps[1..], search, typeFilter), rest);
      forall j | 1 <= j < |ps| ensures ps[1..][j - 1] == ps[j] { }
    }
  }

  /**
   * A selection from ps[1..] becomes a selection from ps, with the first element taken
   * or not; position j > 0 is picked exactly when position j - 1 was picked before.
   */
  lemma ExtendSelection<T>(ps: seq<T>, kept: bool, r: seq<T>, rest: seq<nat>) returns (idx: seq<nat>)
    requires ps != []
    requires SelectsInOrder(r, ps[1..], rest)
    ensures SelectsInOrder(if kept then [ps[0]] + r else r, ps, idx)
    ensures 0 in idx <==> kept
    ensures forall j :: 1 <= j < |ps| ==> (j in idx <==> j - 1 in rest)
  {
    var shifted := Shift(rest);
    ShiftSelects(r, ps, rest);
    forall j | 1 <= j < |ps| ensures j in shifted <==> j - 1 in rest {
      if j in shifted {
        var k :| 0 <= k < |shifted| && shifted[k] == j;
        assert rest[k] == j - 1;
      }
      if j - 1 in rest {
        var k :| 0 <= k < |rest| && rest[k] == j - 1;
        assert shifted[k] == j;
      }
    }
    idx := if kept then [0] + shifted else shifted;
  }

  /** Moving a selection from ps[1..] to ps shifts every position by one. */
  lemma ShiftSelects<T>(r: seq<T>, ps: seq<T>, idx: seq<nat>)
    requires ps != []
    requires SelectsInOrder(r, ps[1..], idx)
    ensures SelectsInOrder(r, ps, Shift(idx))
    ensures SelectsInOrder([ps[0]] + r, ps, [0] + Shift(idx))
    ensures 0 !in Shift(idx)
  {
    var sh := Shift(idx);
    forall k | 0 <= k < |sh| ensures sh[k] < |ps| && ps[sh[k]] == r[k] {
      assert ps[1..][idx[k]] == ps[idx[k] + 1];
    }
    var all := [0] + sh;
    forall k | 0 <= k < |all| ensures all[k] < |ps| && ps[all[k]] == ([ps[0]] + r)[k] {
      if k > 0 { assert all[k] == sh[k - 1]; }
    }
  }

  /** Splitting the loaded list anywhere splits the filtered list at the same place. */
  lemma {:induction false} FilterAppend(a: seq<Pokemon>, b: seq<Pokemon>, search: string, typeFilter: string)
    ensures Filter(a + b, search, typeFilter) == Filter(a, search, typeFilter) + Filter(b, search, typeFilter)
  {
    if a == [] {
      assert a + b == b;
    } else {
      assert (a + b)[1..] == a[1..] + b;
      FilterAppend(a[1..], b, search, typeFilter);
    }
  }

  /** A list whose every record passes the filter comes back whole. */
  lemma {:induction false} FilterKeepsAllPassing(ps: seq<Pokemon>, search: string, typeFilter: string)
    requires forall p :: p in ps ==> Keep(p, search, typeFilter)
    ensures Filter(ps, search, typeFilter) == ps
  {
    if ps != [] {
      assert ps[0] in ps;
      assert forall p :: p in ps[1..] ==> p in ps;
      FilterKeepsAllPassing(ps[1..], search, typeFilter);
    }
  }

  /** With no search text and no selected type, the whole loaded list is shown. */
  lemma EmptyCriteriaShowEverything(ps: seq<Pokemon>)
    ensures Filter(ps, "", "") == ps
  {
  }

  /** Filtering an already filtered list with the same criteria changes nothing. */
  lemma FilterIdempotent(ps: seq<Pokemon>, search: string, typeFilter: string)
    ensures Filter(Filter(ps, search, typeFilter), search, typeFilter) == Filter(ps, search, typeFilter)
  {
  }

  /** The search text is compared case-insensitively: only its lower-cased form matters. */
  lemma SearchIgnoresCase(p: Pokemon, search: string)
    ensures MatchesName(p, search) <==> MatchesName(p, ToLower(search))
  {
    ToLowerIdempotent(search);
  }

  /** A search whose lower-cased form starts the lower-cased name always matches. */
  lemma PrefixSearchMatches(p: Pokemon, search: string)
    requires IsPrefix(ToLower(search), ToLower(p.name))
    ensures MatchesName(p, search)
  {
  }

  /** Searching "char" or "CHAR" finds a record named "Charmander". */
  lemma CharFindsCharmander(p: Pokemon, search: string)
    requires p.name == "Charmander"
    requires search == "char" || search == "CHAR"
    ensures MatchesName(p, search)
  {
    var lowered, needle := ToLower(p.name), ToLower(search);
    assert lowered[0] == 'c' && lowered[1] == 'h' && lowered[2] == 'a' && lowered[3] == 'r';
    assert needle[0] == 'c' && needle[1] == 'h' && needle[2] == 'a' && needle[3] == 'r';
    assert lowered[..4] == needle;
    PrefixSearchMatches(p, search);
  }

  /**
   * The type test is exact: a selected type that is in the record's list but whose
   * lower-cased form is not selects the record, and its lower-cased form does not.
   */
  lemma TypeTestIsCaseSensitive(p: Pokemon, typeName: string)
    requires typeName != "" && typeName in p.types && ToLower(typeName) !in p.types
    ensures MatchesType(p, typeName)
    ensures !MatchesType(p, ToLower(typeName))
  {
  }

  /** For instance, "fire" does not select a record whose only type is "Fire". */
  lemma FireIsNotFire(p: Pokemon)
    requires p.types == ["Fire"]
    ensures MatchesType(p, "Fire") && !MatchesType(p, "fire")
  {
  }
}
