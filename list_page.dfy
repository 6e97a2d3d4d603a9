/**
 * The state of the catalog list page: the loaded records, the pagination cursor, the
 * loading flag and the two filter inputs, with the transitions the page performs on them.
 * Fetches are strictly sequential: each BeginFetch is followed by its CompleteFetch.
 */
module ListPage {
  import opened PokemonFilter

  /** Initial page size; the page never changes it. */
  const DefaultLimit: int := 50

  /** The next window is requested once the viewport is this many pixels from the bottom. */
  const ScrollMargin: int := 500

  /** The three ways a listing request can end. */
  datatype Response =
    | Array(data: seq<Pokemon>)  // the payload is an array of records
    | Malformed                  // the payload decoded to something other than an array
    | Failed                     // the request or the decoding threw

  /** The query parameters of one listing request. */
  datatype Request = Request(offset: int, limit: int)

  datatype Option<T> = None | Some(value: T)

  /**
   * The viewport is near the bottom: the bottom edge of the viewport (its height plus the
   * scroll position) is at most ScrollMargin pixels above the end of the document.
   */
  predicate NearBottom(innerHeight: int, scrollY: int, scrollHeight: int) {
    innerHeight + scrollY >= scrollHeight - ScrollMargin
  }

  /** The records after a response: an array is appended, anything else leaves the list alone. */
  function Merge(prev: seq<Pokemon>, resp: Response): (r: seq<Pokemon>)
    ensures resp.Array? ==> |r| == |prev| + |resp.data| && prev <= r && r[|prev|..] == resp.data
    ensures !resp.Array? ==> r == prev
  {
    match resp
    case Array(data) => prev + data
    case _ => prev
  }

  class PokemonListPage {
    var pokemons: seq<Pokemon>
    var offset: int
    var limit: int
    var loading: bool
    var search: string
    var typeFilter: string

    /** The page size stays at its default and the cursor is a whole number of pages. */
    ghost predicate Valid()
      reads this
    {
      limit == DefaultLimit && 0 <= offset && offset % limit == 0
    }

    /**
     * The records currently shown: exactly the loaded records that pass the filter, and all
     * of them while there is no search text and no selected type.
     */
    function Filtered(): (r: seq<Pokemon>)
      reads this
      ensures |r| <= |pokemons|
      ensures forall p :: p in r <==> p in pokemons && Keep(p, search, typeFilter)
      ensures search == "" && typeFilter == "" ==> r == pokemons
    {
      EmptyCriteriaShowEverything(pokemons);
      Filter(pokemons, search, typeFilter)
    }

    constructor ()
      ensures Valid()
      ensures pokemons == [] && offset == 0 && limit == DefaultLimit && !loading
      ensures search == "" && typeFilter == ""
    {
      pokemons := [];
      offset := 0;
      limit := DefaultLimit;
      loading := false;
      search := "";
      typeFilter := "";
    }

    /** Start of `fetchPokemons`: raises the loading flag and issues the request for the current window. */
    method BeginFetch() returns (req: Request)
      requires Valid()
      modifies this`loading
      ensures Valid()
      ensures loading
      ensures req == Request(offset, limit)
    {
      loading := true;
      req := Request(offset, limit);
    }

    /**
     * End of `fetchPokemons`: an array response is appended to the loaded records, a
     * malformed or failed one is dropped, and the loading flag is lowered in every case.
     */
    method CompleteFetch(resp: Response)
      requires Valid()
      modifies this`pokemons, this`loading
      ensures Valid()
      ensures !loading
      ensures pokemons == Merge(old(pokemons), resp)
      ensures resp.Array? ==> Filtered() == old(Filtered()) + Filter(resp.data, search, typeFilter)
      ensures !resp.Array? ==> Filtered() == old(Filtered())
    {
      match resp {
        case Array(data) =>
          FilterAppend(pokemons, data, search, typeFilter);
          pokemons := pokemons + data;
        case _ =>
      }
      loading := false;
    }

    /** One whole `fetchPokemons` call whose outcome is resp. */
    method FetchPokemons(resp: Response) returns (req: Request)
      requires Valid()
      modifies this`pokemons, this`loading
      ensures Valid()
      ensures req == Request(offset, limit)
      ensures !loading
      ensures pokemons == Merge(old(pokemons), resp)
    {
      req := BeginFetch();
      CompleteFetch(resp);
    }

    /**
     * `handleScroll`: near the bottom and with no request in flight, the cursor advances by
     * one page; otherwise nothing changes. The result says whether the cursor moved, which
     * is what makes the page issue its next fetch.
     */
    method OnScroll(innerHeight: int, scrollY: int, scrollHeight: int) returns (advanced: bool)
      requires Valid()
      modifies this`offset
      ensures Valid()
      ensures advanced <==> NearBottom(innerHeight, scrollY, scrollHeight) && !loading
      ensures offset == if advanced then old(offset) + limit else old(offset)
      ensures old(offset) <= offset
    {
      advanced := NearBottom(innerHeight, scrollY, scrollHeight) && !loading;
      if advanced {
        offset := offset + limit;
      }
    }

    /**
     * A scroll event followed by the effect that watches the cursor: when the cursor moved,
     * the next window (the old cursor plus one page) is fetched and its outcome resp applied.
     */
    method ScrollThenFetch(innerHeight: int, scrollY: int, scrollHeight: int, resp: Response)
      returns (req: Option<Request>)
      requires Valid()
      modifies this`offset, this`pokemons, this`loading
      ensures Valid()
      ensures req.Some? <==> NearBottom(innerHeight, scrollY, scrollHeight) && !old(loading)
      ensures req.Some? ==> req.value == Request(old(offset) + DefaultLimit, DefaultLimit)
      ensures offset == if req.Some? then old(offset) + DefaultLimit else old(offset)
      ensures req.Some? ==> pokemons == Merge(old(pokemons), resp) && !loading
      ensures req.None? ==> pokemons == old(pokemons) && loading == old(loading)
    {
      var advanced := OnScroll(innerHeight, scrollY, scrollHeight);
      if advanced {
        var r := FetchPokemons(resp);
        req := Some(r);
      } else {
        req := None;
      }
    }

    /** The search box's `onChange`. */
    method SetSearch(text: string)
      requires Valid()
      modifies this`search
      ensures Valid()
      ensures search == text
    {
      search := text;
    }

    /** The type selector's `onChange`. */
    method SetTypeFilter(typeName: string)
      requires Valid()
      modifies this`typeFilter
      ensures Valid()
      ensures typeFilter == typeName
    {
      typeFilter := typeName;
    }
  }
}
