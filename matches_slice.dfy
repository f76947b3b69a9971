/**
 * The match-list store slice (frontend/src/store/matchesSlice.ts). Each reducer
 * is a method of `MatchesSlice` that assigns the state's fields in place.
 */
module MatchesSlice {
  import opened Wrappers
  import opened MatchTypes
  import opened JsOperators

  const FAILED_TO_FETCH_MATCHES := "Failed to fetch matches"

  /** The error the rejected reducer stores: `action.error.message ?? 'Failed to fetch matches'`. */
  function RejectedError(message: Option<string>): (r: string)
    ensures message.Some? ==> r == message.value
    ensures message.None? ==> r == FAILED_TO_FETCH_MATCHES
  {
    NullishCoalesce(message, FAILED_TO_FETCH_MATCHES)
  }

  /**
   * Unlike the match-page slice, whose stored error is never empty, this slice stores
   * an empty error exactly when the rejection's message is the empty string.
   */
  lemma EmptyErrorOnlyFromEmptyMessage(message: Option<string>)
    ensures RejectedError(message) == "" <==> message == Some("")
  {
  }

  class MatchesSlice {
    var matches: seq<Match>
    var filters: Dict
    var resultSet: Dict
    var loading: bool
    var error: Option<string>

    /** `initialState`. */
    constructor ()
      ensures matches == [] && filters == map[] && resultSet == map[]
      ensures !loading && error == None
    {
      matches := [];
      filters := map[];
      resultSet := map[];
      loading := false;
      error := None;
    }

    /** `fetchMatches.pending`. */
    method Pending()
      modifies this
      ensures loading && error == None
      ensures matches == old(matches) && filters == old(filters) && resultSet == old(resultSet)
    {
      loading := true;
      error := None;
    }

    /** `fetchMatches.fulfilled`: the payload's three fields replace the loaded data. */
    method Fulfilled(payload: MatchesResponse)
      modifies this
      ensures !loading && error == old(error)
      ensures matches == payload.matches && filters == payload.filters && resultSet == payload.resultSet
    {
      loading := false;
      matches := payload.matches;
      filters := payload.filters;
      resultSet := payload.resultSet;
    }

    /** `fetchMatches.rejected`: previously loaded data stays. */
    method Rejected(message: Option<string>)
      modifies this
      ensures !loading && error == Some(RejectedError(message))
      ensures matches == old(matches) && filters == old(filters) && resultSet == old(resultSet)
    {
      loading := false;
      error := Some(RejectedError(message));
    }
  }

  /** A refresh that fails keeps the list already shown and reports the error. */
  method FailedRefresh(slice: MatchesSlice, message: Option<string>)
    modifies slice
    ensures !slice.loading && slice.error == Some(RejectedError(message))
    ensures slice.matches == old(slice.matches) && slice.filters == old(slice.filters)
    ensures slice.resultSet == old(slice.resultSet)
  {
    slice.Pending();
    slice.Rejected(message);
  }
}
