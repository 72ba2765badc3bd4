/**
 * The history screen: the finished walks among the stored requests, an
 * inclusive date-range filter over them, and the star-rating dialog.
 * Dates are whole numbers that order as the source's `Date` values do; an
 * empty date field is None.
 */
module History {
  import opened Optional
  import opened WalkRequests
  import opened JsArray
  import opened JsString

  function IsFinished(): WalkRequest -> bool {
    (r: WalkRequest) => r.isCompleted == Some(true)
  }

  /** `allRequests.filter(request => request.isCompleted === true)`. */
  function FinishedWalks(requests: seq<WalkRequest>): (r: seq<WalkRequest>)
    ensures forall i :: 0 <= i < |r| ==> r[i].isCompleted == Some(true) && r[i] in requests
    ensures forall i :: 0 <= i < |requests| && requests[i].isCompleted == Some(true) ==> requests[i] in r
    ensures forall x :: multiset(r)[x] == if x.isCompleted == Some(true) then multiset(requests)[x] else 0
    ensures IsSubsequence(r, requests)
  {
    FilterIsSubsequence(requests, IsFinished());
    FilterMembers(requests, IsFinished());
    FilterCounts(requests, IsFinished());
    Filter(requests, IsFinished())
  }

  /** The filter callback: a bound that is set must hold, inclusively. */
  function InRange(date: int, start: Option<int>, end: Option<int>): (b: bool)
    ensures b <==> (start.None? || start.value <= date) && (end.None? || date <= end.value)
  {
    if start.Some? && end.Some? then date >= start.value && date <= end.value
    else if start.Some? then date >= start.value
    else if end.Some? then date <= end.value
    else true
  }

  function DateFilter(start: Option<int>, end: Option<int>): WalkRequest -> bool {
    (w: WalkRequest) => InRange(w.date, start, end)
  }

  /** The walks whose date lies within the set bounds, in their stored order. */
  function WithinDates(walks: seq<WalkRequest>, start: Option<int>, end: Option<int>): (r: seq<WalkRequest>)
    ensures forall i :: 0 <= i < |r| ==> r[i] in walks && InRange(r[i].date, start, end)
    ensures forall i :: 0 <= i < |walks| && InRange(walks[i].date, start, end) ==> walks[i] in r
    ensures forall x :: multiset(r)[x] == if InRange(x.date, start, end) then multiset(walks)[x] else 0
    ensures IsSubsequence(r, walks)
  {
    FilterIsSubsequence(walks, DateFilter(start, end));
    FilterMembers(walks, DateFilter(start, end));
    FilterCounts(walks, DateFilter(start, end));
    Filter(walks, DateFilter(start, end))
  }

  /** With neither bound set the filter keeps every walk, so the early return agrees with it. */
  lemma NoBoundsKeepsAll(walks: seq<WalkRequest>)
    ensures WithinDates(walks, None, None) == walks
  {
    FilterAll(walks, DateFilter(None, None));
  }

  /** Both bounds are inclusive: walks on the first and the last day are kept, later ones dropped. */
  lemma InclusiveBoundsExample(a: WalkRequest, b: WalkRequest, c: WalkRequest)
    requires a.date == 20240101 && b.date == 20240115 && c.date == 20240201
    ensures WithinDates([a, b, c], Some(20240101), Some(20240115)) == [a, b]
  {
    var p := DateFilter(Some(20240101), Some(20240115));
    assert [a, b, c][1..] == [b, c];
    assert [b, c][1..] == [c];
    assert Filter([c], p) == [];
    assert Filter([b, c], p) == [b];
  }

  /**
   * The range (lo', hi') lies within (lo, hi): every bound set on the wider
   * range is also set on the narrower one, and at least as tight.
   */
  predicate NarrowerBounds(lo: Option<int>, hi: Option<int>, lo': Option<int>, hi': Option<int>) {
    && (lo.Some? ==> lo'.Some? && lo.value <= lo'.value)
    && (hi.Some? ==> hi'.Some? && hi'.value <= hi.value)
  }

  /** Setting or tightening either bound can only drop walks. */
  lemma NarrowerRangeKeepsFewer(walks: seq<WalkRequest>, lo: Option<int>, hi: Option<int>,
                                lo': Option<int>, hi': Option<int>)
    requires NarrowerBounds(lo, hi, lo', hi')
    ensures IsSubsequence(WithinDates(walks, lo', hi'), WithinDates(walks, lo, hi))
  {
    NarrowedFilter(walks, DateFilter(lo, hi), DateFilter(lo', hi'));
  }

  /** Which dialog is open: rating the app or rating one walk. */
  datatype RatingKind = AppRating | WalkRating

  /** What `submitRating` did: asked for a rating, or thanked the user for one. */
  datatype RatingOutcome = RatingMissing | Thanked(message: string)

  /** The thank-you text; the plural "s" appears above one star. */
  function ThanksMessage(kind: RatingKind, stars: int): (m: string)
    ensures |m| >= 2 && m[|m| - 1] == '!'
    ensures m[|m| - 2] == 's' <==> stars > 1
  {
    var target := if kind == AppRating then "nuestra app" else "el paseo";
    var head := "¡Gracias por calificar " + target + " con " + NumberToString(stars) + " estrella";
    assert head[|head| - 1] == 'a';
    head + (if stars > 1 then "s" else "") + "!"
  }

  /**
   * The history screen's lists: the finished walks of the stored list, and
   * an order-preserving selection of them on display.
   */
  ghost predicate Shown(stored: seq<WalkRequest>, finalized: seq<WalkRequest>, filtered: seq<WalkRequest>) {
    finalized == FinishedWalks(stored) && IsSubsequence(filtered, finalized)
  }

  class HistoryComponent {
    /** The list under `walkRequests`. */
    var stored: seq<WalkRequest>
    var finalizedWalks: seq<WalkRequest>
    var filteredWalks: seq<WalkRequest>
    var selectedWalk: Option<WalkRequest>
    var startDate: Option<int>
    var endDate: Option<int>
    var showRatingModal: bool
    var ratingType: RatingKind
    var currentRating: int
    var ratingHover: int

    /** The lists on screen are consistent with the stored list. */
    ghost predicate Valid()
      reads this
    {
      Shown(stored, finalizedWalks, filteredWalks)
    }

    /** The screen opens with its field defaults and loads the finished walks (`ngOnInit`). */
    constructor(storedRequests: seq<WalkRequest>)
      ensures stored == storedRequests
      ensures finalizedWalks == FinishedWalks(storedRequests) && filteredWalks == finalizedWalks
      ensures selectedWalk == None && startDate == None && endDate == None
      ensures !showRatingModal && ratingType == AppRating && currentRating == 0 && ratingHover == 0
      ensures Valid()
    {
      stored := storedRequests;
      finalizedWalks := FinishedWalks(storedRequests);
      filteredWalks := FinishedWalks(storedRequests);
      selectedWalk := None;
      startDate := None;
      endDate := None;
      showRatingModal := false;
      ratingType := AppRating;
      currentRating := 0;
      ratingHover := 0;
      SubsequenceReflexive(FinishedWalks(storedRequests));
    }

    /** Reloads the finished walks and shows them all, whatever the filter fields hold. */
    method LoadFinalizedWalks()
      modifies this
      ensures Valid()
      ensures finalizedWalks == FinishedWalks(stored) && filteredWalks == finalizedWalks
      ensures stored == old(stored) && selectedWalk == old(selectedWalk)
      ensures startDate == old(startDate) && endDate == old(endDate)
      ensures showRatingModal == old(showRatingModal) && ratingType == old(ratingType)
      ensures currentRating == old(currentRating) && ratingHover == old(ratingHover)
    {
      finalizedWalks := FinishedWalks(stored);
      filteredWalks := finalizedWalks;
      SubsequenceReflexive(finalizedWalks);
    }

    /** Shows the finished walks within the date fields; with both fields empty, all of them. */
    method FilterWalks()
      requires Valid()
      modifies this
      ensures Valid()
      ensures filteredWalks == WithinDates(finalizedWalks, startDate, endDate)
      ensures stored == old(stored) && finalizedWalks == old(finalizedWalks)
      ensures selectedWalk == old(selectedWalk)
      ensures startDate == old(startDate) && endDate == old(endDate)
      ensures showRatingModal == old(showRatingModal) && ratingType == old(ratingType)
      ensures currentRating == old(currentRating) && ratingHover == old(ratingHover)
    {
      if startDate.None? && endDate.None? {
        NoBoundsKeepsAll(finalizedWalks);
        filteredWalks := finalizedWalks;
        return;
      }
      filteredWalks := WithinDates(finalizedWalks, startDate, endDate);
    }

    method SelectWalk(walk: WalkRequest)
      requires Valid()
      modifies this
      ensures Valid()
      ensures selectedWalk == Some(walk)
      ensures stored == old(stored) && finalizedWalks == old(finalizedWalks)
      ensures filteredWalks == old(filteredWalks)
      ensures startDate == old(startDate) && endDate == old(endDate)
      ensures showRatingModal == old(showRatingModal) && ratingType == old(ratingType)
      ensures currentRating == old(currentRating) && ratingHover == old(ratingHover)
    {
      selectedWalk := Some(walk);
    }

    /** Opens the dialog to rate one walk, with no stars chosen. */
    method SelectRating(walk: WalkRequest)
      requires Valid()
      modifies this
      ensures Valid()
      ensures selectedWalk == Some(walk) && ratingType == WalkRating
      ensures showRatingModal && currentRating == 0
      ensures stored == old(stored) && finalizedWalks == old(finalizedWalks)
      ensures filteredWalks == old(filteredWalks)
      ensures startDate == old(startDate) && endDate == old(endDate)
      ensures ratingHover == old(ratingHover)
    {
      ghost var lists := (stored, finalizedWalks, filteredWalks);
      selectedWalk := Some(walk);
      ratingType := WalkRating;
      showRatingModal := true;
      currentRating := 0;
      assert (stored, finalizedWalks, filteredWalks) == lists;
    }

    /** Opens the dialog to rate the app, with no stars chosen. */
    method RateApp()
      requires Valid()
      modifies this
      ensures Valid()
      ensures ratingType == AppRating && showRatingModal && currentRating == 0
      ensures selectedWalk == old(selectedWalk)
      ensures stored == old(stored) && finalizedWalks == old(finalizedWalks)
      ensures filteredWalks == old(filteredWalks)
      ensures startDate == old(startDate) && endDate == old(endDate)
      ensures ratingHover == old(ratingHover)
    {
      ratingType := AppRating;
      showRatingModal := true;
      currentRating := 0;
    }

    method SetRating(rating: int)
      requires Valid()
      modifies this
      ensures Valid()
      ensures currentRating == rating
      ensures selectedWalk == old(selectedWalk) && ratingType == old(ratingType)
      ensures showRatingModal == old(showRatingModal) && ratingHover == old(ratingHover)
      ensures stored == old(stored) && finalizedWalks == old(finalizedWalks)
      ensures filteredWalks == old(filteredWalks)
      ensures startDate == old(startDate) && endDate == old(endDate)
    {
      currentRating := rating;
    }

    method HoverRating(rating: int)
      requires Valid()
      modifies this
      ensures Valid()
      ensures ratingHover == rating
      ensures selectedWalk == old(selectedWalk) && ratingType == old(ratingType)
      ensures showRatingModal == old(showRatingModal) && currentRating == old(currentRating)
      ensures stored == old(stored) && finalizedWalks == old(finalizedWalks)
      ensures filteredWalks == old(filteredWalks)
      ensures startDate == old(startDate) && endDate == old(endDate)
    {
      ratingHover := rating;
    }

    method ClearHover()
      requires Valid()
      modifies this
      ensures Valid()
      ensures ratingHover == 0
      ensures selectedWalk == old(selectedWalk) && ratingType == old(ratingType)
      ensures showRatingModal == old(showRatingModal) && currentRating == old(currentRating)
      ensures stored == old(stored) && finalizedWalks == old(finalizedWalks)
      ensures filteredWalks == old(filteredWalks)
      ensures startDate == old(startDate) && endDate == old(endDate)
    {
      ratingHover := 0;
    }

    /**
     * Without a chosen rating nothing changes and the user is asked for one;
     * otherwise the user is thanked and the dialog closes with its stars cleared.
     */
    method SubmitRating() returns (outcome: RatingOutcome)
      requires Valid()
      modifies this
      ensures Valid()
      ensures old(currentRating) == 0 ==> outcome == RatingMissing && unchanged(this)
      ensures old(currentRating) != 0 ==>
        && outcome == Thanked(ThanksMessage(old(ratingType), old(currentRating)))
        && !showRatingModal && currentRating == 0 && ratingHover == 0
        && selectedWalk == old(selectedWalk) && ratingType == old(ratingType)
        && stored == old(stored) && finalizedWalks == old(finalizedWalks)
        && filteredWalks == old(filteredWalks)
        && startDate == old(startDate) && endDate == old(endDate)
    {
      if currentRating == 0 {
        return RatingMissing;
      }
      outcome := Thanked(ThanksMessage(ratingType, currentRating));
      CloseRatingModal();
    }

    method CloseRatingModal()
      requires Valid()
      modifies this
      ensures Valid()
      ensures !showRatingModal && currentRating == 0 && ratingHover == 0
      ensures selectedWalk == old(selectedWalk) && ratingType == old(ratingType)
      ensures stored == old(stored) && finalizedWalks == old(finalizedWalks)
      ensures filteredWalks == old(filteredWalks)
      ensures startDate == old(startDate) && endDate == old(endDate)
    {
      showRatingModal := false;
      currentRating := 0;
      ratingHover := 0;
    }
  }
}
