/**
 * The match-page store slice (frontend/src/store/matchDetailSlice.ts).
 *
 * The reducers assign the state's fields in place; each one is a method of
 * `MatchDetailSlice`. The field the source calls `match` is `detail` here,
 * because `match` is a Dafny keyword.
 */
module MatchDetailSlice {
  import opened Wrappers
  import opened MatchTypes
  import opened JsOperators

  const SOMETHING_WENT_WRONG := "Something went wrong"
  const FAILED_TO_FETCH_MATCH_DETAILS := "Failed to fetch match details"

  /** What the request for a match page can fail with. */
  datatype FetchFailure =
    | AxiosFailure(responseMessage: Option<string>, message: Option<string>)  // `error.response?.data?.message`, `error.message`
    | OtherFailure                                                            // anything that is not an axios error

  /** The value the thunk rejects with: the first non-empty message, else the fixed fallback. */
  function RejectionMessage(failure: FetchFailure): (r: string)
    ensures r != ""
    ensures failure.OtherFailure? ==> r == FAILED_TO_FETCH_MATCH_DETAILS
    ensures failure.AxiosFailure? && Truthy(failure.responseMessage) ==> r == failure.responseMessage.value
    ensures failure.AxiosFailure? && !Truthy(failure.responseMessage) && Truthy(failure.message) ==> r == failure.message.value
    ensures failure.AxiosFailure? && !Truthy(failure.responseMessage) && !Truthy(failure.message) ==>
      r == FAILED_TO_FETCH_MATCH_DETAILS
  {
    match failure
    case AxiosFailure(responseMessage, message) =>
      LogicalOr(responseMessage, LogicalOr(message, FAILED_TO_FETCH_MATCH_DETAILS))
    case OtherFailure => FAILED_TO_FETCH_MATCH_DETAILS
  }

  /** The error the rejected reducer stores: `action.payload || 'Something went wrong'`. */
  function RejectedError(payload: Option<string>): (r: string)
    ensures r != ""
    ensures Truthy(payload) ==> r == payload.value
    ensures payload == None || payload == Some("") ==> r == SOMETHING_WENT_WRONG
  {
    LogicalOr(payload, SOMETHING_WENT_WRONG)
  }

  /** A rejection raised by the thunk itself reaches the state unchanged: the reducer's fallback is never needed for it. */
  lemma ThunkRejectionIsShown(failure: FetchFailure)
    ensures RejectedError(Some(RejectionMessage(failure))) == RejectionMessage(failure)
  {
  }

  class MatchDetailSlice {
    var detail: Option<MatchDetail>
    var loading: bool
    var error: Option<string>

    /** `initialState`: no match, not loading, no error. */
    predicate IsInitial()
      reads this
    {
      detail == None && !loading && error == None
    }

    /** Starts in `initialState`. */
    constructor ()
      ensures IsInitial()
    {
      detail := None;
      loading := false;
      error := None;
    }

    /** `clearMatchDetail`: back to the initial state from any state. */
    method ClearMatchDetail()
      modifies this
      ensures IsInitial()
    {
      detail := None;
      loading := false;
      error := None;
    }

    /** `fetchMatchDetail.pending`. */
    method Pending()
      modifies this
      ensures loading && error == None
      ensures detail == old(detail)
    {
      loading := true;
      error := None;
    }

    /** `fetchMatchDetail.fulfilled`. */
    method Fulfilled(payload: MatchDetail)
      modifies this
      ensures !loading && detail == Some(payload)
      ensures error == old(error)
    {
      loading := false;
      detail := Some(payload);
    }

    /** `fetchMatchDetail.rejected`; `payload` is absent when the thunk did not reject with a value. */
    method Rejected(payload: Option<string>)
      modifies this
      ensures !loading && error == Some(RejectedError(payload))
      ensures detail == old(detail)
    {
      loading := false;
      error := Some(RejectedError(payload));
    }
  }

  /** Clearing twice is clearing once: both end in the initial state. */
  method ClearIsIdempotent(slice: MatchDetailSlice)
    modifies slice
    ensures slice.IsInitial()
  {
    slice.ClearMatchDetail();
    slice.ClearMatchDetail();
  }

  /** A request that succeeds shows its match with no error, whatever an earlier failure left. */
  method SucceededRequest(slice: MatchDetailSlice, payload: MatchDetail)
    modifies slice
    ensures slice.detail == Some(payload) && !slice.loading && slice.error == None
  {
    slice.Pending();
    slice.Fulfilled(payload);
  }

  /** A request that fails leaves the error the thunk produced and keeps the match shown before. */
  method FailedRequest(slice: MatchDetailSlice, failure: FetchFailure)
    modifies slice
    ensures !slice.loading && slice.error == Some(RejectionMessage(failure))
    ensures slice.detail == old(slice.detail)
  {
    slice.Pending();
    slice.Rejected(Some(RejectionMessage(failure)));
  }
}
