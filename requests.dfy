/** The walk-request record kept, as a list, under the `walkRequests` key. */
module WalkRequests {
  import opened Optional

  /** The two `status` texts the screens compare against; a stored record may carry any text. */
  const PendingStatus := "pending"
  const ConfirmedStatus := "confirmed"

  /**
   * A booking. The date is the parsed `date` field; `isCompleted` is absent
   * from records the request form writes.
   */
  datatype WalkRequest = WalkRequest(
    id: int,
    date: int,
    startTime: string,
    endTime: string,
    address: string,
    walker: string,
    status: string,
    isCompleted: Option<bool>)
}

/** The requests screen: the stored list split by status, selection and cancellation. */
module Requests {
  import opened Optional
  import opened WalkRequests
  import opened JsArray

  function HasStatus(status: string): WalkRequest -> bool {
    (r: WalkRequest) => r.status == status
  }

  /** `allRequests.filter(req => req.status === status)`. */
  function WithStatus(requests: seq<WalkRequest>, status: string): (r: seq<WalkRequest>)
    ensures forall i :: 0 <= i < |r| ==> r[i].status == status && r[i] in requests
    ensures forall i :: 0 <= i < |requests| && requests[i].status == status ==> requests[i] in r
    ensures forall x :: multiset(r)[x] == if x.status == status then multiset(requests)[x] else 0
    ensures IsSubsequence(r, requests)
  {
    FilterIsSubsequence(requests, HasStatus(status));
    FilterMembers(requests, HasStatus(status));
    FilterCounts(requests, HasStatus(status));
    Filter(requests, HasStatus(status))
  }

  function HasOtherId(id: int): WalkRequest -> bool {
    (r: WalkRequest) => r.id != id
  }

  /** `allRequests.filter(req => req.id !== id)`. */
  function WithoutId(requests: seq<WalkRequest>, id: int): (r: seq<WalkRequest>)
    ensures forall i :: 0 <= i < |r| ==> r[i].id != id && r[i] in requests
    ensures forall i :: 0 <= i < |requests| && requests[i].id != id ==> requests[i] in r
    ensures forall x :: multiset(r)[x] == if x.id != id then multiset(requests)[x] else 0
    ensures IsSubsequence(r, requests)
  {
    FilterIsSubsequence(requests, HasOtherId(id));
    FilterMembers(requests, HasOtherId(id));
    FilterCounts(requests, HasOtherId(id));
    Filter(requests, HasOtherId(id))
  }

  /** Cancelling an id that no request carries leaves the list as it was. */
  lemma CancelAbsentIdIsNoOp(requests: seq<WalkRequest>, id: int)
    requires forall i :: 0 <= i < |requests| ==> requests[i].id != id
    ensures WithoutId(requests, id) == requests
  {
    FilterAll(requests, HasOtherId(id));
  }

  /** Cancelling the same id twice is the same as cancelling it once. */
  lemma CancelIsIdempotent(requests: seq<WalkRequest>, id: int)
    ensures WithoutId(WithoutId(requests, id), id) == WithoutId(requests, id)
  {
    CancelAbsentIdIsNoOp(WithoutId(requests, id), id);
  }

  /** No request is listed both as pending and as confirmed, and none is listed twice. */
  lemma PartitionIsDisjoint(requests: seq<WalkRequest>)
    ensures multiset(WithStatus(requests, PendingStatus)) + multiset(WithStatus(requests, ConfirmedStatus))
            <= multiset(requests)
  {
    DisjointFiltersWithin(requests, HasStatus(PendingStatus), HasStatus(ConfirmedStatus));
  }

  /**
   * Removing an id from the stored list and then splitting by status gives
   * the old status lists with that id removed.
   */
  lemma CancelCommutesWithStatus(requests: seq<WalkRequest>, id: int, status: string)
    ensures WithStatus(WithoutId(requests, id), status) == WithoutId(WithStatus(requests, status), id)
  {
    FilterCommutes(requests, HasOtherId(id), HasStatus(status));
  }

  /** What `cancelRequest` did. */
  datatype CancelOutcome = NothingSelected | Declined | Cancelled

  class RequestsComponent {
    /** The list under `walkRequests`. */
    var stored: seq<WalkRequest>
    var pendingRequests: seq<WalkRequest>
    var confirmedRequests: seq<WalkRequest>
    var selectedRequest: Option<WalkRequest>

    /** The two lists show the stored list split by status. */
    ghost predicate Loaded()
      reads this
    {
      pendingRequests == WithStatus(stored, PendingStatus) && confirmedRequests == WithStatus(stored, ConfirmedStatus)
    }

    /** The screen opens on the stored list (`ngOnInit`). */
    constructor(storedRequests: seq<WalkRequest>)
      ensures stored == storedRequests && Loaded() && selectedRequest == None
    {
      stored := storedRequests;
      pendingRequests := WithStatus(storedRequests, PendingStatus);
      confirmedRequests := WithStatus(storedRequests, ConfirmedStatus);
      selectedRequest := None;
    }

    method LoadRequests()
      modifies this
      ensures stored == old(stored) && selectedRequest == old(selectedRequest)
      ensures Loaded()
    {
      pendingRequests := WithStatus(stored, PendingStatus);
      confirmedRequests := WithStatus(stored, ConfirmedStatus);
    }

    method SelectRequest(request: WalkRequest)
      modifies this
      ensures selectedRequest == Some(request)
      ensures stored == old(stored) && pendingRequests == old(pendingRequests)
      ensures confirmedRequests == old(confirmedRequests)
    {
      selectedRequest := Some(request);
    }

    /** `confirm` is the user's answer to the confirmation dialog. */
    method CancelRequest(confirm: bool) returns (outcome: CancelOutcome)
      modifies this
      ensures old(selectedRequest).None? ==> outcome == NothingSelected && unchanged(this)
      ensures old(selectedRequest).Some? && !confirm ==> outcome == Declined && unchanged(this)
      ensures old(selectedRequest).Some? && confirm ==>
        && outcome == Cancelled
        && stored == WithoutId(old(stored), old(selectedRequest).value.id)
        && Loaded() && selectedRequest == None
      ensures old(selectedRequest).Some? && confirm && old(Loaded()) ==>
        && pendingRequests == WithoutId(old(pendingRequests), old(selectedRequest).value.id)
        && confirmedRequests == WithoutId(old(confirmedRequests), old(selectedRequest).value.id)
    {
      if selectedRequest.None? {
        return NothingSelected;
      }
      if !confirm {
        return Declined;
      }
      var id := selectedRequest.value.id;
      ghost var before := stored;
      CancelCommutesWithStatus(before, id, PendingStatus);
      CancelCommutesWithStatus(before, id, ConfirmedStatus);
      stored := WithoutId(stored, id);
      LoadRequests();
      assert pendingRequests == WithoutId(WithStatus(before, PendingStatus), id);
      assert confirmedRequests == WithoutId(WithStatus(before, ConfirmedStatus), id);
      selectedRequest := None;
      outcome := Cancelled;
    }
  }
}
