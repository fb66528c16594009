/** The dialog-bubble detector (`DialogBubbleDetector`) and its watcher
    (`DialogBubbleWatcher`): the nested waterfill loops of `detect_all`,
    proved to return exactly `DialogBoxes` of the screen. */
module DialogBubble {
  import opened Geometry
  import opened Overlay
  import opened DialogBubbleRules

  /** The loop over the four border strips; it stops at the first bad one. */
  method CheckBorder(s: Screen, b: FloatBox) returns (isBadBorder: bool)
    ensures isBadBorder == HasBadBorder(s, b)
  {
    var borderBoxes := BorderStrips(b);
    isBadBorder := false;
    var k := 0;
    while k < |borderBoxes|
      invariant 0 <= k <= |borderBoxes|
      invariant !isBadBorder
      invariant forall m :: 0 <= m < k ==> !IsBadStrip(s, borderBoxes[m])
    {
      var averageRed := s.averageRed(BorderRange, borderBoxes[k]);
      if averageRed > MaxBorderRed {
        assert borderBoxes[k] in borderBoxes;
        isBadBorder := true;
        break;
      }
      k := k + 1;
    }
  }

  /** The overlap loop: ORs the intersection test over every kept box. */
  method IsOverlapping(candidate: FloatBox, dialogBoxes: seq<FloatBox>) returns (isOverlapping: bool)
    ensures isOverlapping == OverlapsAny(candidate, dialogBoxes)
  {
    isOverlapping := false;
    for i := 0 to |dialogBoxes|
      invariant isOverlapping == OverlapsAny(candidate, dialogBoxes[..i])
    {
      assert dialogBoxes[..i + 1] == dialogBoxes[..i] + [dialogBoxes[i]];
      isOverlapping := isOverlapping || Overlaps(candidate, dialogBoxes[i]);
    }
    assert dialogBoxes[..|dialogBoxes|] == dialogBoxes;
  }

  /** The rejection chain for one translated fill box: the geometric rules,
      then the border strips, then the overlap test; a survivor is appended. */
  method ConsiderCandidate(screen: Screen, dialogBoxes: seq<FloatBox>, translated: FloatBox)
    returns (kept: seq<FloatBox>)
    ensures kept == Step(screen, dialogBoxes, translated)
    ensures kept == dialogBoxes || kept == dialogBoxes + [translated]
  {
    kept := dialogBoxes;
    if Discarded(screen, translated) {
      return;
    }
    var isBadBorder := CheckBorder(screen, translated);
    if isBadBorder {
      return;
    }
    var isOverlapping := IsOverlapping(translated, dialogBoxes);
    if isOverlapping {
      return;
    }
    kept := dialogBoxes + [translated];
  }

  /** The detector's configuration only feeds its overlay. */
  datatype DialogBubbleDetector = DialogBubbleDetector(color: Color, box: FloatBox) {

    method MakeOverlays(items: VideoOverlaySet)
      modifies items
      ensures items.items == old(items.items) + [OverlayItem(color, box)]
    {
      items.Add(color, box);
    }

    /** True exactly when `detect_all` finds at least one bubble. */
    method Detect(screen: Screen) returns (found: bool)
      ensures found <==> DialogBoxes(screen) != []
    {
      var hits := DetectAll(screen);
      found := hits != [];
    }

    method DetectAll(screen: Screen) returns (dialogBoxes: seq<FloatBox>)
      ensures dialogBoxes == DialogBoxes(screen)
      ensures forall b :: b in dialogBoxes ==> Acceptable(screen, b)
      ensures PairwiseSeparated(dialogBoxes)
    {
      var minWidth := MinWidth(screen.width);
      var minHeight := MinHeight(screen.height);
      dialogBoxes := [];
      var objects := screen.waterfill(WholeScreen, BorderRange, BorderMinArea);
      var i := 0;
      while i < |objects|
        invariant 0 <= i <= |objects|
        invariant SelectFrom(screen, dialogBoxes, CandidatesOf(screen, objects[i..])) == DialogBoxes(screen)
      {
        var borderObject := objects[i];
        CandidatesOfAt(screen, objects, i);
        i := i + 1;
        if borderObject.box.Width() < minWidth || borderObject.box.Height() < minHeight {
          assert [] + CandidatesOf(screen, objects[i..]) == CandidatesOf(screen, objects[i..]);
          continue;
        }
        var borderFloatBox := screen.toFloat(borderObject.box);
        var yellowObjects := screen.waterfill(Crop(borderObject.box), YellowRange, FillMinArea);
        assert yellowObjects[0..] == yellowObjects;
        var j := 0;
        while j < |yellowObjects|
          invariant 0 <= j <= |yellowObjects|
          invariant SelectFrom(screen, dialogBoxes,
            FillBoxes(screen, borderFloatBox, yellowObjects[j..]) + CandidatesOf(screen, objects[i..]))
            == DialogBoxes(screen)
        {
          var translated := screen.translate(borderFloatBox, yellowObjects[j].box);
          FillBoxesAt(screen, borderFloatBox, yellowObjects, j, CandidatesOf(screen, objects[i..]));
          SelectFromCons(screen, dialogBoxes, translated,
            FillBoxes(screen, borderFloatBox, yellowObjects[j + 1..]) + CandidatesOf(screen, objects[i..]));
          j := j + 1;
          dialogBoxes := ConsiderCandidate(screen, dialogBoxes, translated);
        }
        assert yellowObjects[j..] == [];
        assert FillBoxes(screen, borderFloatBox, yellowObjects[j..]) + CandidatesOf(screen, objects[i..])
          == CandidatesOf(screen, objects[i..]);
      }
      DialogBoxesSound(screen);
    }
  }

  /** Watches frames for at least one bubble, keeping the latest hits and one
      overlay handle per hit. */
  class DialogBubbleWatcher {
    const detector: DialogBubbleDetector
    var hits: seq<FloatBox>
    var hitBoxes: seq<OverlayBoxScope>

    constructor (color: Color, box: FloatBox)
      ensures detector == DialogBubbleDetector(color, box)
      ensures hits == [] && hitBoxes == []
    {
      detector := DialogBubbleDetector(color, box);
      hits := [];
      hitBoxes := [];
    }

    /** `found_locations()`. */
    function FoundLocations(): (r: seq<FloatBox>)
      reads this
    {
      hits
    }

    method MakeOverlays(items: VideoOverlaySet)
      modifies items
      ensures items.items == old(items.items) + [OverlayItem(detector.color, detector.box)]
    {
      detector.MakeOverlays(items);
    }

    /** Replaces the hits with this frame's result (the timestamp is unused)
        and shows each hit in magenta. */
    method ProcessFrame(screen: Screen, timestamp: int) returns (found: bool)
      modifies this
      ensures hits == DialogBoxes(screen)
      ensures |hitBoxes| == |hits|
      ensures forall k :: 0 <= k < |hits| ==> hitBoxes[k] == OverlayBoxScope(hits[k], Magenta)
      ensures found <==> hits != []
    {
      var detected := detector.DetectAll(screen);
      hits := detected;
      hitBoxes := [];
      for k := 0 to |detected|
        invariant hits == detected
        invariant |hitBoxes| == k
        invariant forall m :: 0 <= m < k ==> hitBoxes[m] == OverlayBoxScope(hits[m], Magenta)
      {
        hitBoxes := hitBoxes + [OverlayBoxScope(hits[k], Magenta)];
      }
      found := hits != [];
    }
  }
}
