/** The decision helpers of the auction farmer: comparing two readings of
    the offers, choosing which offers to bid on, judging where a dialog
    bubble sits, voting over repeated bid readings, finding the wanted
    offer, and the bounded retry when talking to the auctioneer. */
module AuctionFarmer {
  import opened Geometry
  import opened Overlay
  import opened DialogBubbleRules
  import opened DialogBubble
  import opened CenterOrder

  datatype Result<T> = Success(value: T) | Failure(error: string)

  /** `AuctionOffer`: the item an NPC auctions, as its slug. */
  datatype AuctionOffer = AuctionOffer(item: string)

  /** An offer together with the dialog bubble it was read from. */
  type OfferDialog = (AuctionOffer, FloatBox)

  datatype Language = Japanese | OtherLanguage(name: string)

  // ---------------------------------------------------------------------
  // Dialog bubbles on the screen

  /** `detect_dialog_boxes`: a detector over the whole screen. */
  method DetectDialogBoxes(screen: Screen) returns (dialogBoxes: seq<FloatBox>)
    ensures dialogBoxes == DialogBoxes(screen)
    ensures PairwiseSeparated(dialogBoxes)
  {
    var detector := DialogBubbleDetector(Color(0xff00ff00), FloatBox(0.0, 0.0, 0.999, 0.999));
    dialogBoxes := detector.DetectAll(screen);
  }

  // ---------------------------------------------------------------------
  // Comparing offers

  function Items(offers: seq<OfferDialog>): seq<string> {
    seq(|offers|, i requires 0 <= i < |offers| => offers[i].0.item)
  }

  /** Same number of offers and the same items, in any order, whatever the boxes. */
  predicate OffersEqual(first: seq<OfferDialog>, second: seq<OfferDialog>) {
    |first| == |second| && multiset(Items(first)) == multiset(Items(second))
  }

  method AreOffersEqual(firstOffers: seq<OfferDialog>, secondOffers: seq<OfferDialog>) returns (equal: bool)
    ensures equal == OffersEqual(firstOffers, secondOffers)
  {
    if |firstOffers| == |secondOffers| {
      var first: multiset<string> := multiset{};
      var second: multiset<string> := multiset{};
      for i := 0 to |firstOffers|
        invariant first == multiset(Items(firstOffers[..i]))
        invariant second == multiset(Items(secondOffers[..i]))
      {
        assert Items(firstOffers[..i + 1]) == Items(firstOffers[..i]) + [firstOffers[i].0.item];
        assert Items(secondOffers[..i + 1]) == Items(secondOffers[..i]) + [secondOffers[i].0.item];
        first := first + multiset{firstOffers[i].0.item};
        second := second + multiset{secondOffers[i].0.item};
      }
      assert firstOffers[..|firstOffers|] == firstOffers;
      assert secondOffers[..|secondOffers|] == secondOffers;
      return first == second;
    }
    return false;
  }

  /** Offer equality is an equivalence. */
  lemma OffersEqualIsEquivalence(a: seq<OfferDialog>, b: seq<OfferDialog>, c: seq<OfferDialog>)
    ensures OffersEqual(a, a)
    ensures OffersEqual(a, b) == OffersEqual(b, a)
    ensures OffersEqual(a, b) && OffersEqual(b, c) ==> OffersEqual(a, c)
  {
  }

  /** Order and boxes are ignored: swapping two offers, or reading every
      offer from a different bubble, leaves the list equal to the original. */
  lemma OffersEqualIgnoresOrderAndBoxes(a: seq<OfferDialog>, i: nat, j: nat, boxes: seq<FloatBox>)
    requires i < |a| && j < |a| && |boxes| == |a|
    ensures OffersEqual(a, a[i := a[j]][j := a[i]])
    ensures OffersEqual(a, seq(|a|, k requires 0 <= k < |a| => (a[k].0, boxes[k])))
  {
    var swapped := a[i := a[j]][j := a[i]];
    if i != j {
      assert Items(swapped) == Items(a)[i := a[j].0.item][j := a[i].0.item];
    } else {
      assert swapped == a;
    }
    var moved := seq(|a|, k requires 0 <= k < |a| => (a[k].0, boxes[k]));
    assert Items(moved) == Items(a);
  }

  /** Repeats count: lists that hold an item a different number of times
      are not equal. */
  lemma OffersEqualCountsRepeats(a: seq<OfferDialog>, b: seq<OfferDialog>, item: string)
    requires multiset(Items(a))[item] != multiset(Items(b))[item]
    ensures !OffersEqual(a, b)
  {
  }

  // ---------------------------------------------------------------------
  // Choosing offers

  const BottleCaps: set<string> := {"bottle-cap", "gold-bottle-cap"}

  /** `is_good_offer`, with the selected items as a set. In Japanese the two
      bottle caps cannot be told apart, so either one stands for both. */
  function IsGoodOffer(language: Language, targets: set<string>, offer: AuctionOffer): (good: bool)
    ensures good <==> (offer.item in targets
      || (language == Japanese && offer.item in BottleCaps && BottleCaps * targets != {}))
  {
    assert "bottle-cap" in targets ==> "bottle-cap" in BottleCaps * targets;
    assert "gold-bottle-cap" in targets ==> "gold-bottle-cap" in BottleCaps * targets;
    var anyBottleCap :=
      language == Japanese
      && (offer.item == "bottle-cap" || offer.item == "gold-bottle-cap")
      && ("bottle-cap" in targets || "gold-bottle-cap" in targets);
    offer.item in targets || anyBottleCap
  }

  /** Outside Japanese an offer is good exactly when its item is selected. */
  lemma GoodOfferOutsideJapanese(language: Language, targets: set<string>, offer: AuctionOffer)
    requires language != Japanese
    ensures IsGoodOffer(language, targets, offer) <==> offer.item in targets
  {
  }

  /** In Japanese the two caps are interchangeable, and selecting more items
      never turns a good offer bad. */
  lemma BottleCapsInterchangeableInJapanese(targets: set<string>, more: set<string>, offer: AuctionOffer)
    ensures IsGoodOffer(Japanese, targets, AuctionOffer("bottle-cap"))
         == IsGoodOffer(Japanese, targets, AuctionOffer("gold-bottle-cap"))
    ensures IsGoodOffer(Japanese, {"gold-bottle-cap"}, AuctionOffer("bottle-cap"))
    ensures targets <= more ==> (IsGoodOffer(Japanese, targets, offer) ==> IsGoodOffer(Japanese, more, offer))
  {
  }

  // ---------------------------------------------------------------------
  // Where the bubbles sit

  /** `get_bubble_center`: the point equally far from opposite edges. */
  function BubbleCenter(bubble: FloatBox): (center: Center)
    ensures center.0 - bubble.x == bubble.MaxX() - center.0
    ensures center.1 - bubble.y == bubble.MaxY() - center.1
  {
    (bubble.x + 0.5 * bubble.width, bubble.y + 0.5 * bubble.height)
  }

  function Centers(dialogBoxes: seq<FloatBox>): seq<Center> {
    seq(|dialogBoxes|, i requires 0 <= i < |dialogBoxes| => BubbleCenter(dialogBoxes[i]))
  }

  /** `detect_sorted_dialog_centers`: the bubble centres, left column first
      and each column top to bottom. */
  method DetectSortedDialogCenters(screen: Screen) returns (dialogCenters: seq<Center>)
    ensures multiset(dialogCenters) == multiset(Centers(DialogBoxes(screen)))
    ensures forall i, j :: 0 <= i < j < |dialogCenters| && dialogCenters[j].0 < 0.5 ==> dialogCenters[i].0 < 0.5
    ensures forall i, j :: 0 <= i < j < |dialogCenters| && Side(dialogCenters[i]) == Side(dialogCenters[j]) ==>
      dialogCenters[i].1 <= dialogCenters[j].1
    ensures (forall k :: 0 <= k < |dialogCenters| ==> dialogCenters[k].0 != 0.5) ==>
      forall i, j :: 0 <= i < j < |dialogCenters| ==> !ComparatorAsWritten(dialogCenters[j], dialogCenters[i])
  {
    var dialogBoxes := DetectDialogBoxes(screen);
    var centers: seq<Center> := seq(|dialogBoxes|, _ => (-1.0, -1.0));
    for i := 0 to |dialogBoxes|
      invariant |centers| == |dialogBoxes|
      invariant forall k :: 0 <= k < i ==> centers[k] == BubbleCenter(dialogBoxes[k])
    {
      centers := centers[i := BubbleCenter(dialogBoxes[i])];
    }
    assert centers == Centers(dialogBoxes);
    dialogCenters := SortCenters(centers);
    OrderedMeansColumnsThenRows(dialogCenters);
  }

  /** The tunable target for the first bubble's centre (`OPTIMAL_X`,
      `X_ALPHA`, `OPTIMAL_Y`, `Y_ALPHA`). */
  datatype CenterTolerance = CenterTolerance(optimalX: real, xAlpha: real, optimalY: real, yAlpha: real)

  const DefaultTolerance := CenterTolerance(0.26, 0.02, 0.24, 0.02)

  function Abs(r: real): real {
    if r < 0.0 then -r else r
  }

  /** Within `alpha` of `optimal` or of its mirror image `1 - optimal`. */
  predicate NearOptimum(optimal: real, alpha: real, c: real) {
    (optimal - alpha <= c <= optimal + alpha) || (1.0 - optimal - alpha <= c <= 1.0 - optimal + alpha)
  }

  /** `is_good_dialog_center`; the two-argument calls pass `false` for both
      ignore flags. */
  function IsGoodDialogCenter(t: CenterTolerance, centerX: real, centerY: real, ignoreX: bool, ignoreY: bool): (good: bool)
    ensures good <==> ((ignoreX || NearOptimum(t.optimalX, t.xAlpha, centerX))
                    && (ignoreY || NearOptimum(t.optimalY, t.yAlpha, centerY)))
  {
    var goodX := Abs(t.optimalX - centerX) <= t.xAlpha || Abs((1.0 - t.optimalX) - centerX) <= t.xAlpha || ignoreX;
    var goodY := Abs(t.optimalY - centerY) <= t.yAlpha || Abs((1.0 - t.optimalY) - centerY) <= t.yAlpha || ignoreY;
    goodX && goodY
  }

  /** Mirroring a centre through the middle of the screen, on either axis
      or both, does not change the verdict. */
  lemma DialogCenterMirrorSymmetry(t: CenterTolerance, centerX: real, centerY: real, ignoreX: bool, ignoreY: bool)
    ensures IsGoodDialogCenter(t, centerX, centerY, ignoreX, ignoreY)
         == IsGoodDialogCenter(t, 1.0 - centerX, 1.0 - centerY, ignoreX, ignoreY)
    ensures IsGoodDialogCenter(t, centerX, centerY, ignoreX, ignoreY)
         == IsGoodDialogCenter(t, 1.0 - centerX, centerY, ignoreX, ignoreY)
    ensures IsGoodDialogCenter(t, centerX, centerY, ignoreX, ignoreY)
         == IsGoodDialogCenter(t, centerX, 1.0 - centerY, ignoreX, ignoreY)
  {
  }

  /** With the default options a centre is good when x is in [0.24, 0.28] or
      [0.72, 0.76] and y is in [0.22, 0.26] or [0.74, 0.78]. */
  lemma DefaultToleranceWindows(centerX: real, centerY: real)
    ensures IsGoodDialogCenter(DefaultTolerance, centerX, centerY, false, false) <==>
      ((0.24 <= centerX <= 0.28) || (0.72 <= centerX <= 0.76))
      && ((0.22 <= centerY <= 0.26) || (0.74 <= centerY <= 0.78))
  {
  }

  // ---------------------------------------------------------------------
  // Reading the next bid

  const BidReadCount: nat := 10

  /** How many of `readings` equal `v`. */
  function Count(readings: seq<nat>, v: nat): nat {
    if readings == [] then 0
    else Count(readings[..|readings| - 1], v) + (if readings[|readings| - 1] == v then 1 else 0)
  }

  lemma {:induction false} CountIsMultiplicity(readings: seq<nat>, v: nat)
    ensures Count(readings, v) == multiset(readings)[v]
  {
    if readings != [] {
      var n := |readings| - 1;
      CountIsMultiplicity(readings[..n], v);
      assert readings == readings[..n] + [readings[n]];
    }
  }

  lemma {:induction false} CountGrows(readings: seq<nat>, a: nat, b: nat, v: nat)
    requires a <= b <= |readings|
    ensures Count(readings[..a], v) <= Count(readings[..b], v)
    decreases b - a
  {
    if a < b {
      CountGrows(readings, a, b - 1, v);
      CountStep(readings, b - 1, v);
    }
  }

  lemma CountStep(readings: seq<nat>, i: nat, v: nat)
    requires i < |readings|
    ensures Count(readings[..i + 1], v) == Count(readings[..i], v) + (if v == readings[i] then 1 else 0)
  {
    assert readings[..i + 1][..i] == readings[..i];
  }

  /** What `read_next_bid` knows after the first `i` readings: `readBids`
      counts them, `highestRead` is the largest count and `readValue` the
      reading whose count reached it first, at index `t`. */
  ghost predicate VoteState(readings: seq<nat>, i: nat, readBids: map<nat, nat>,
                            highestRead: nat, readValue: nat, t: nat)
  {
    && i <= |readings|
    && t <= i
    && (forall v :: Count(readings[..i], v) == (if v in readBids then readBids[v] else 0))
    && (forall v :: Count(readings[..i], v) <= highestRead)
    && (i == 0 ==> highestRead == 0)
    && (i > 0 ==> (t < i && readings[t] == readValue
          && Count(readings[..t + 1], readValue) == highestRead
          && Count(readings[..i], readValue) == highestRead))
    && (forall u :: 0 <= u < t ==> Count(readings[..u + 1], readings[u]) < highestRead)
  }

  /** One iteration of the loop in `read_next_bid` keeps `VoteState`. */
  lemma VoteStep(readings: seq<nat>, i: nat, readBids: map<nat, nat>, highestRead: nat, readValue: nat, t: nat)
    requires i < |readings|
    requires VoteState(readings, i, readBids, highestRead, readValue, t)
    ensures var readBid := readings[i];
      var count := (if readBid in readBids then readBids[readBid] else 0) + 1;
      VoteState(readings, i + 1, readBids[readBid := count],
        if count > highestRead then count else highestRead,
        if count > highestRead then readBid else readValue,
        if count > highestRead then i else t)
  {
    var readBid := readings[i];
    var count := (if readBid in readBids then readBids[readBid] else 0) + 1;
    var newBids := readBids[readBid := count];
    var newHighest := if count > highestRead then count else highestRead;
    var next := readings[..i + 1];
    CountStep(readings, i, readBid);
    forall v
      ensures Count(next, v) == (if v in newBids then newBids[v] else 0)
      ensures Count(next, v) <= newHighest
    {
      CountStep(readings, i, v);
    }
    if count > highestRead {
      forall u | 0 <= u < i
        ensures Count(readings[..u + 1], readings[u]) < count
      {
        CountGrows(readings, u + 1, i, readings[u]);
      }
    } else {
      CountStep(readings, i, readValue);
    }
  }

  lemma VoteResult(readings: seq<nat>, readBids: map<nat, nat>, highestRead: nat, readValue: nat, t: nat)
    requires readings != []
    requires VoteState(readings, |readings|, readBids, highestRead, readValue, t)
    ensures readValue in readings
    ensures forall v :: Count(readings, v) <= Count(readings, readValue)
    ensures 0 <= t < |readings| && readings[t] == readValue
      && Count(readings[..t + 1], readValue) == Count(readings, readValue)
      && forall u :: 0 <= u < t ==> Count(readings[..u + 1], readings[u]) < Count(readings, readValue)
  {
    assert readings[..|readings|] == readings;
  }

  /** `read_next_bid`: the most frequent of the readings; of several equally
      frequent ones, the one whose count reached that maximum first. */
  method ReadNextBid(readings: seq<nat>) returns (readValue: nat)
    requires |readings| == BidReadCount
    ensures readValue in readings
    ensures forall v :: Count(readings, v) <= Count(readings, readValue)
    ensures exists t :: (0 <= t < |readings| && readings[t] == readValue
      && Count(readings[..t + 1], readValue) == Count(readings, readValue)
      && forall u :: 0 <= u < t ==> Count(readings[..u + 1], readings[u]) < Count(readings, readValue))
  {
    var readBids: map<nat, nat> := map[];
    var highestRead: nat := 0;
    readValue := 0;
    ghost var t: nat := 0;
    for i := 0 to |readings|
      invariant VoteState(readings, i, readBids, highestRead, readValue, t)
    {
      VoteStep(readings, i, readBids, highestRead, readValue, t);
      var readBid := readings[i];
      if readBid !in readBids {
        readBids := readBids[readBid := 0];
      }
      readBids := readBids[readBid := readBids[readBid] + 1];
      if readBids[readBid] > highestRead {
        highestRead := readBids[readBid];
        readValue := readBid;
        t := i;
      }
    }
    VoteResult(readings, readBids, highestRead, readValue, t);
  }

  // ---------------------------------------------------------------------
  // Finding the wanted offer and talking to the auctioneer

  /** `find_target` on the offers read from the screen: the first offer of
      the wanted item, or the exception `find_target` throws. */
  method FindTarget(offers: seq<OfferDialog>, wanted: AuctionOffer) returns (r: Result<OfferDialog>)
    ensures r.Success? <==> exists i :: 0 <= i < |offers| && offers[i].0.item == wanted.item
    ensures r.Success? ==> exists i :: (0 <= i < |offers| && offers[i] == r.value
      && offers[i].0.item == wanted.item
      && forall j :: 0 <= j < i ==> offers[j].0.item != wanted.item)
    ensures r.Failure? ==> r.error == "Lost offer dialog for wanted item: " + wanted.item
  {
    for i := 0 to |offers|
      invariant forall j :: 0 <= j < i ==> offers[j].0.item != wanted.item
    {
      if offers[i].0.item == wanted.item {
        return Success(offers[i]);
      }
    }
    return Failure("Lost offer dialog for wanted item: " + wanted.item);
  }

  const MaxTalkAttempts: nat := 10

  /** How one call of `move_to_dialog` ended: it reached the bubble and
      reports whether the player now stands east, or `find_target` lost the
      wanted offer's bubble and threw. */
  datatype MoveOutcome = Moved(east: bool) | LostOffer

  /** Attempts `0 .. n - 1` all moved (when moving at all) and got no dialog. */
  predicate AttemptsFailed(oneNpc: bool, moveToDialog: nat -> MoveOutcome, waitUntil: nat -> int, n: nat) {
    forall k :: 0 <= k < n ==> (oneNpc || moveToDialog(k).Moved?) && waitUntil(k) != 0
  }

  /** Attempt `n` lost the offer's bubble while moving, after `n` attempts
      that failed; `isEast` is what the last completed move left. */
  predicate LostAt(moveToDialog: nat -> MoveOutcome, waitUntil: nat -> int, n: nat,
                   isEastBefore: bool, isEast: bool) {
    && n < MaxTalkAttempts
    && AttemptsFailed(false, moveToDialog, waitUntil, n)
    && moveToDialog(n) == LostOffer
    && isEast == (if n == 0 then isEastBefore else moveToDialog(n - 1).east)
  }

  /** `move_to_auctioneer`. `moveToDialog(k)` is how the k-th call of
      `move_to_dialog` ended (made only without `ONE_NPC`), and `waitUntil(k)`
      what the k-th wait for the advance-dialog prompt returned (0 when it
      appeared). On success the result is the index of the attempt that
      worked. `isEast` is `is_new_position_east`, which each completed move
      overwrites. */
  method MoveToAuctioneer(oneNpc: bool, offer: AuctionOffer, moveToDialog: nat -> MoveOutcome,
                          waitUntil: nat -> int, isEastBefore: bool)
    returns (r: Result<nat>, isEast: bool)
    ensures r.Success? ==> (r.value < MaxTalkAttempts
      && AttemptsFailed(oneNpc, moveToDialog, waitUntil, r.value)
      && (oneNpc || moveToDialog(r.value).Moved?) && waitUntil(r.value) == 0)
    ensures r.Failure? && r.error == "Too many attempts to talk to the NPC." ==>
      AttemptsFailed(oneNpc, moveToDialog, waitUntil, MaxTalkAttempts)
    ensures r.Failure? && r.error != "Too many attempts to talk to the NPC." ==> (!oneNpc
      && r.error == "Lost offer dialog for wanted item: " + offer.item
      && exists n :: LostAt(moveToDialog, waitUntil, n, isEastBefore, isEast))
    ensures r.Failure? ==> (r.error == "Too many attempts to talk to the NPC."
      || r.error == "Lost offer dialog for wanted item: " + offer.item)
    ensures oneNpc ==> isEast == isEastBefore
    ensures !oneNpc && r.Success? ==> isEast == moveToDialog(r.value).east
    ensures !oneNpc && r.Failure? && r.error == "Too many attempts to talk to the NPC." ==>
      isEast == moveToDialog(MaxTalkAttempts - 1).east
  {
    isEast := isEastBefore;
    var tries: nat := 0;
    while tries < MaxTalkAttempts
      invariant tries <= MaxTalkAttempts
      invariant AttemptsFailed(oneNpc, moveToDialog, waitUntil, tries)
      invariant oneNpc || tries == 0 ==> isEast == isEastBefore
      invariant !oneNpc && tries > 0 ==> isEast == moveToDialog(tries - 1).east
    {
      if !oneNpc {
        var moved := moveToDialog(tries);
        if moved == LostOffer {
          ghost var lost := "Lost offer dialog for wanted item: " + offer.item;
          assert lost[0] != "Too many attempts to talk to the NPC."[0];
          assert LostAt(moveToDialog, waitUntil, tries, isEastBefore, isEast);
          return Failure("Lost offer dialog for wanted item: " + offer.item), isEast;
        }
        isEast := moved.east;
      }
      var ret := waitUntil(tries);
      if ret == 0 {
        return Success(tries), isEast;
      }
      tries := tries + 1;
    }
    return Failure("Too many attempts to talk to the NPC."), isEast;
  }
}
