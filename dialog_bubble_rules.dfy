/** The decision rules of the dialog-bubble detector, lifted out of its loops
    as pure predicates, and the specification of what `detect_all` returns:
    candidates in scan order, each kept when every rejection rule passes and
    it meets none of the boxes already kept. */
module DialogBubbleRules {
  import opened Geometry

  /** An inclusive ARGB colour band. */
  datatype ColorRange = ColorRange(min: bv32, max: bv32)

  /** The orange bubble border and the yellow bubble fill. */
  const BorderRange := ColorRange(0xffc07000, 0xffffc550)
  const YellowRange := ColorRange(0xffd0b000, 0xffffff30)

  /** Minimum pixel counts handed to the two waterfill passes. */
  const BorderMinArea: nat := 50
  const FillMinArea: nat := 300

  /** First-pass size floor, stated against a 1920x1080 reference frame. */
  const ReferenceWidth: real := 1920.0
  const ReferenceHeight: real := 1080.0
  const MinObjectWidth: real := 100.0
  const MinObjectHeight: real := 70.0

  const BorderThicknessX: real := 0.001
  const BorderThicknessY: real := 0.001
  const CornerSizeX: real := 0.021
  const CornerSizeY: real := 0.03

  /** Brightest average red a border strip of the black/white rendering may have. */
  const MaxBorderRed: real := 50.0

  /** One connected component found by a waterfill pass. */
  datatype Component = Component(box: PixelBox, area: nat)

  /** The image a waterfill pass runs on: the whole screen, or the crop of
      the screen to a first-pass component's box. */
  datatype Region = WholeScreen | Crop(box: PixelBox)

  /** A frame together with the image kernels the detector calls on it.
      - `waterfill(region, band, minArea)`: the components, in scan order, of
        the band's binary mask over the region, each of at least `minArea` pixels;
      - `toFloat`: `pixelbox_to_floatbox` on this screen;
      - `translate(parent, box)`: `translate_to_parent`, mapping a pixel box of
        the crop `parent` to full-screen coordinates;
      - `averageRed(band, box)`: the red channel of `image_average` over `box`
        of the screen's black/white rendering of `band`. */
  datatype Screen = Screen(
    width: nat,
    height: nat,
    waterfill: (Region, ColorRange, nat) -> seq<Component>,
    toFloat: PixelBox -> FloatBox,
    translate: (FloatBox, PixelBox) -> FloatBox,
    averageRed: (ColorRange, FloatBox) -> real)

  // ---------------------------------------------------------------------
  // First pass: border components

  /** `size_t(screen_rel_width * min_object_width)`. */
  function MinWidth(screenWidth: nat): int {
    ((screenWidth as real / ReferenceWidth) * MinObjectWidth).Floor
  }

  /** `size_t(screen_rel_height * min_object_height)`. */
  function MinHeight(screenHeight: nat): int {
    ((screenHeight as real / ReferenceHeight) * MinObjectHeight).Floor
  }

  /** A border component the first pass skips. */
  predicate TooSmall(s: Screen, o: Component) {
    o.box.Width() < MinWidth(s.width) || o.box.Height() < MinHeight(s.height)
  }

  function BorderObjects(s: Screen): seq<Component> {
    s.waterfill(WholeScreen, BorderRange, BorderMinArea)
  }

  /** The second pass inside a border component's box. */
  function FillObjects(s: Screen, o: Component): seq<Component> {
    s.waterfill(Crop(o.box), YellowRange, FillMinArea)
  }

  /** The fill components mapped back to full-screen coordinates. */
  function FillBoxes(s: Screen, borderBox: FloatBox, fills: seq<Component>): (r: seq<FloatBox>)
    ensures |r| == |fills|
    ensures forall j :: 0 <= j < |fills| ==> r[j] == s.translate(borderBox, fills[j].box)
  {
    if fills == [] then []
    else [s.translate(borderBox, fills[0].box)] + FillBoxes(s, borderBox, fills[1..])
  }

  /** The candidates contributed by a sequence of border components. */
  function CandidatesOf(s: Screen, objects: seq<Component>): seq<FloatBox> {
    if objects == [] then []
    else
      var o := objects[0];
      (if TooSmall(s, o) then [] else FillBoxes(s, s.toFloat(o.box), FillObjects(s, o)))
      + CandidatesOf(s, objects[1..])
  }

  /** Every translated fill box, in the order the nested passes find them. */
  function Candidates(s: Screen): seq<FloatBox> {
    CandidatesOf(s, BorderObjects(s))
  }

  // ---------------------------------------------------------------------
  // Rejection rules

  /** Touching the screen edge: strict on the left and top, inclusive on the
      right and bottom. */
  predicate TouchesEdge(b: FloatBox) {
    b.x < BorderThicknessX || b.y < BorderThicknessY
    || b.MaxX() >= 1.0 - BorderThicknessX || b.MaxY() >= 1.0 - BorderThicknessY
  }

  /** The bottom-right corner lies in the mini-map area. */
  predicate InMiniMapArea(b: FloatBox) {
    b.MaxX() >= 0.82 - BorderThicknessX && b.MaxY() >= 0.68 - BorderThicknessY
  }

  predicate TooSmallBox(b: FloatBox) {
    b.width < 0.052 || b.height < 0.065
  }

  /** Taller than wide once scaled to the screen's pixels. */
  predicate WrongAspect(s: Screen, b: FloatBox) {
    b.width * (s.width as real) < b.height * (s.height as real)
  }

  predicate TooTall(b: FloatBox) {
    b.height > 0.13
  }

  /** The combined geometric test, in the order `detect_all` tests it. */
  predicate Discarded(s: Screen, b: FloatBox) {
    TouchesEdge(b) || InMiniMapArea(b) || TooSmallBox(b) || WrongAspect(s, b) || TooTall(b)
  }

  /** The four thin strips just outside the left, right, top and bottom edges,
      kept clear of the rounded corners. */
  function BorderStrips(b: FloatBox): seq<FloatBox> {
    [ FloatBox(b.x - BorderThicknessX, b.y + CornerSizeY, BorderThicknessX, b.height - 2.0 * CornerSizeY),
      FloatBox(b.MaxX(), b.y + CornerSizeY, BorderThicknessX, b.height - 2.0 * CornerSizeY),
      FloatBox(b.x + CornerSizeX, b.y - BorderThicknessY, b.width - 2.0 * CornerSizeX, BorderThicknessY),
      FloatBox(b.x + CornerSizeX, b.MaxY(), b.width - 2.0 * CornerSizeX, BorderThicknessY) ]
  }

  predicate IsBadStrip(s: Screen, strip: FloatBox) {
    s.averageRed(BorderRange, strip) > MaxBorderRed
  }

  predicate HasBadBorder(s: Screen, b: FloatBox) {
    exists strip :: strip in BorderStrips(b) && IsBadStrip(s, strip)
  }

  /** A candidate that passes every rule except the overlap test. */
  predicate Acceptable(s: Screen, b: FloatBox) {
    !Discarded(s, b) && !HasBadBorder(s, b)
  }

  /** The closed-interval intersection test of a candidate against a kept box. */
  predicate Overlaps(candidate: FloatBox, found: FloatBox) {
    candidate.x <= found.MaxX() && found.x <= candidate.MaxX()
    && candidate.y <= found.MaxY() && found.y <= candidate.MaxY()
  }

  predicate OverlapsAny(candidate: FloatBox, found: seq<FloatBox>) {
    exists k :: 0 <= k < |found| && Overlaps(candidate, found[k])
  }

  /** Strictly apart along one axis: `a` ends before `b` starts, or the other way. */
  predicate Separated(a: FloatBox, b: FloatBox) {
    a.MaxX() < b.x || b.MaxX() < a.x || a.MaxY() < b.y || b.MaxY() < a.y
  }

  predicate PairwiseSeparated(boxes: seq<FloatBox>) {
    forall i, j :: 0 <= i < j < |boxes| ==> Separated(boxes[i], boxes[j])
  }

  // ---------------------------------------------------------------------
  // The result of detect_all

  /** One candidate against the boxes kept so far. */
  function Step(s: Screen, kept: seq<FloatBox>, candidate: FloatBox): seq<FloatBox> {
    if !Acceptable(s, candidate) || OverlapsAny(candidate, kept) then kept
    else kept + [candidate]
  }

  function SelectFrom(s: Screen, kept: seq<FloatBox>, candidates: seq<FloatBox>): seq<FloatBox>
    decreases |candidates|
  {
    if candidates == [] then kept
    else SelectFrom(s, Step(s, kept, candidates[0]), candidates[1..])
  }

  /** The boxes `detect_all` returns on this screen. */
  function DialogBoxes(s: Screen): seq<FloatBox> {
    SelectFrom(s, [], Candidates(s))
  }

  /** `xs` is `ys` with some elements dropped, order kept. */
  predicate IsSubsequence<T(==)>(xs: seq<T>, ys: seq<T>)
    decreases |ys|
  {
    xs == [] || (ys != [] && ((xs[0] == ys[0] && IsSubsequence(xs[1..], ys[1..])) || IsSubsequence(xs, ys[1..])))
  }

  // ---------------------------------------------------------------------
  // Lemmas

  /** The first-pass floors are the integer parts of 100*W/1920 and 70*H/1080. */
  lemma MinSizesAreIntegerFloors(w: nat, h: nat)
    ensures MinWidth(w) == (100 * w) / 1920
    ensures MinHeight(h) == (70 * h) / 1080
  {
    var qw, rw := (100 * w) / 1920, (100 * w) % 1920;
    assert (100 * w) as real == 1920.0 * qw as real + rw as real;
    assert (w as real / ReferenceWidth) * MinObjectWidth == qw as real + rw as real / 1920.0;
    var qh, rh := (70 * h) / 1080, (70 * h) % 1080;
    assert (70 * h) as real == 1080.0 * qh as real + rh as real;
    assert (h as real / ReferenceHeight) * MinObjectHeight == qh as real + rh as real / 1080.0;
  }

  /** At the reference resolution the floors are 100x70 pixels, at 1280x720
      they are 66x46. */
  lemma MinSizesAtCommonResolutions()
    ensures MinWidth(1920) == 100 && MinHeight(1080) == 70
    ensures MinWidth(1280) == 66 && MinHeight(720) == 46
  {
    MinSizesAreIntegerFloors(1920, 1080);
    MinSizesAreIntegerFloors(1280, 720);
  }

  /** A box is a candidate exactly when it is the translation of a fill
      component found inside a border component that is large enough. */
  lemma {:induction false} CandidatesOfMembership(s: Screen, objects: seq<Component>, c: FloatBox)
    ensures c in CandidatesOf(s, objects) <==>
      exists k :: 0 <= k < |objects| && !TooSmall(s, objects[k])
        && c in FillBoxes(s, s.toFloat(objects[k].box), FillObjects(s, objects[k]))
  {
    if objects != [] {
      var tail := objects[1..];
      CandidatesOfMembership(s, tail, c);
      if c in CandidatesOf(s, tail) {
        var k :| 0 <= k < |tail| && !TooSmall(s, tail[k])
          && c in FillBoxes(s, s.toFloat(tail[k].box), FillObjects(s, tail[k]));
        assert objects[k + 1] == tail[k];
      }
      if exists k :: 0 <= k < |objects| && !TooSmall(s, objects[k])
          && c in FillBoxes(s, s.toFloat(objects[k].box), FillObjects(s, objects[k])) {
        var k :| 0 <= k < |objects| && !TooSmall(s, objects[k])
          && c in FillBoxes(s, s.toFloat(objects[k].box), FillObjects(s, objects[k]));
        if k > 0 {
          assert tail[k - 1] == objects[k];
        }
      }
    }
  }

  lemma CandidateProvenance(s: Screen, c: FloatBox)
    ensures c in Candidates(s) <==>
      exists k :: 0 <= k < |BorderObjects(s)| && !TooSmall(s, BorderObjects(s)[k])
        && c in FillBoxes(s, s.toFloat(BorderObjects(s)[k].box), FillObjects(s, BorderObjects(s)[k]))
  {
    CandidatesOfMembership(s, BorderObjects(s), c);
  }

  lemma CandidatesOfAt(s: Screen, objects: seq<Component>, i: nat)
    requires i < |objects|
    ensures CandidatesOf(s, objects[i..])
      == (if TooSmall(s, objects[i]) then []
          else FillBoxes(s, s.toFloat(objects[i].box), FillObjects(s, objects[i])))
         + CandidatesOf(s, objects[i + 1..])
  {
    assert objects[i..][1..] == objects[i + 1..];
  }

  lemma FillBoxesAt(s: Screen, borderBox: FloatBox, fills: seq<Component>, j: nat, rest: seq<FloatBox>)
    requires j < |fills|
    ensures FillBoxes(s, borderBox, fills[j..]) + rest
      == [s.translate(borderBox, fills[j].box)] + (FillBoxes(s, borderBox, fills[j + 1..]) + rest)
  {
    assert fills[j..][1..] == fills[j + 1..];
  }

  lemma SelectFromCons(s: Screen, kept: seq<FloatBox>, c: FloatBox, rest: seq<FloatBox>)
    ensures SelectFrom(s, kept, [c] + rest) == SelectFrom(s, Step(s, kept, c), rest)
  {
    assert ([c] + rest)[1..] == rest;
  }

  /** The kept list only grows at its end, and what is added comes from the
      candidates in their order. */
  lemma {:induction false} SelectFromExtends(s: Screen, kept: seq<FloatBox>, candidates: seq<FloatBox>)
    ensures |kept| <= |SelectFrom(s, kept, candidates)|
    ensures SelectFrom(s, kept, candidates)[..|kept|] == kept
    ensures IsSubsequence(SelectFrom(s, kept, candidates)[|kept|..], candidates)
    decreases |candidates|
  {
    var r := SelectFrom(s, kept, candidates);
    if candidates == [] {
      assert r[|kept|..] == [];
    } else {
      var c, rest := candidates[0], candidates[1..];
      var next := Step(s, kept, c);
      SelectFromExtends(s, next, rest);
      if next == kept + [c] {
        assert r[..|kept|] == r[..|next|][..|kept|];
        var added := r[|kept|..];
        assert added[0] == c;
        assert added[1..] == r[|next|..];
      }
    }
  }

  lemma {:induction false} SelectFromAcceptable(s: Screen, kept: seq<FloatBox>, candidates: seq<FloatBox>)
    requires forall b :: b in kept ==> Acceptable(s, b)
    ensures forall b :: b in SelectFrom(s, kept, candidates) ==> Acceptable(s, b)
    decreases |candidates|
  {
    if candidates != [] {
      SelectFromAcceptable(s, Step(s, kept, candidates[0]), candidates[1..]);
    }
  }

  lemma {:induction false} SelectFromSeparated(s: Screen, kept: seq<FloatBox>, candidates: seq<FloatBox>)
    requires PairwiseSeparated(kept)
    ensures PairwiseSeparated(SelectFrom(s, kept, candidates))
    decreases |candidates|
  {
    if candidates != [] {
      var c := candidates[0];
      var next := Step(s, kept, c);
      if next == kept + [c] {
        forall i, j | 0 <= i < j < |next|
          ensures Separated(next[i], next[j])
        {
          if j == |kept| {
            assert !Overlaps(c, kept[i]);
          }
        }
      }
      SelectFromSeparated(s, next, candidates[1..]);
    }
  }

  /** A candidate that passes the rules is missing from the result only
      because it meets a box the result keeps. */
  lemma {:induction false} SelectFromMaximal(s: Screen, kept: seq<FloatBox>, candidates: seq<FloatBox>)
    ensures forall c :: c in candidates && Acceptable(s, c) ==>
      c in SelectFrom(s, kept, candidates) || OverlapsAny(c, SelectFrom(s, kept, candidates))
    decreases |candidates|
  {
    if candidates != [] {
      var c, rest := candidates[0], candidates[1..];
      var next := Step(s, kept, c);
      var r := SelectFrom(s, kept, candidates);
      SelectFromMaximal(s, next, rest);
      SelectFromExtends(s, next, rest);
      if Acceptable(s, c) {
        if OverlapsAny(c, kept) {
          var k :| 0 <= k < |kept| && Overlaps(c, kept[k]);
          assert next == kept;
          assert r[k] == r[..|kept|][k];
        } else {
          assert r[|kept|] == r[..|next|][|kept|];
        }
      }
      assert forall x :: x in candidates ==> x == c || x in rest;
    }
  }

  /** Selecting from two runs of candidates is selecting from the first,
      then carrying on with the second. */
  lemma {:induction false} SelectFromAppend(s: Screen, kept: seq<FloatBox>, xs: seq<FloatBox>, ys: seq<FloatBox>)
    ensures SelectFrom(s, kept, xs + ys) == SelectFrom(s, SelectFrom(s, kept, xs), ys)
    decreases |xs|
  {
    if xs != [] {
      assert (xs + ys)[1..] == xs[1..] + ys;
      SelectFromAppend(s, Step(s, kept, xs[0]), xs[1..], ys);
    } else {
      assert xs + ys == ys;
    }
  }

  /** First wins: an acceptable candidate that meets none of the boxes kept
      before it in scan order is in the result, right after those boxes,
      and no later candidate can displace it. */
  lemma FirstWins(s: Screen, p: nat)
    requires p < |Candidates(s)|
    requires Acceptable(s, Candidates(s)[p])
    requires !OverlapsAny(Candidates(s)[p], SelectFrom(s, [], Candidates(s)[..p]))
    ensures var before := SelectFrom(s, [], Candidates(s)[..p]);
      |before| < |DialogBoxes(s)| && DialogBoxes(s)[..|before| + 1] == before + [Candidates(s)[p]]
    ensures Candidates(s)[p] in DialogBoxes(s)
  {
    var cs := Candidates(s);
    var before := SelectFrom(s, [], cs[..p]);
    assert cs == cs[..p] + ([cs[p]] + cs[p + 1..]);
    SelectFromAppend(s, [], cs[..p], [cs[p]] + cs[p + 1..]);
    SelectFromCons(s, before, cs[p], cs[p + 1..]);
    SelectFromExtends(s, before + [cs[p]], cs[p + 1..]);
    assert DialogBoxes(s)[..|before| + 1][|before|] == cs[p];
  }

  /** What every result of detect_all satisfies. */
  lemma DialogBoxesSound(s: Screen)
    ensures forall b :: b in DialogBoxes(s) ==> Acceptable(s, b)
    ensures PairwiseSeparated(DialogBoxes(s))
    ensures IsSubsequence(DialogBoxes(s), Candidates(s))
    ensures forall c :: c in Candidates(s) && Acceptable(s, c) ==>
      c in DialogBoxes(s) || OverlapsAny(c, DialogBoxes(s))
  {
    SelectFromAcceptable(s, [], Candidates(s));
    SelectFromSeparated(s, [], Candidates(s));
    SelectFromExtends(s, [], Candidates(s));
    assert DialogBoxes(s)[0..] == DialogBoxes(s);
    SelectFromMaximal(s, [], Candidates(s));
  }

  /** The rejection rules written out as bounds on every returned box. */
  lemma AcceptedBoxBounds(s: Screen, b: FloatBox)
    requires b in DialogBoxes(s)
    ensures 0.001 <= b.x && 0.001 <= b.y && b.MaxX() < 0.999 && b.MaxY() < 0.999
    ensures !(b.MaxX() >= 0.819 && b.MaxY() >= 0.679)
    ensures b.width >= 0.052 && 0.065 <= b.height <= 0.13
    ensures b.width * (s.width as real) >= b.height * (s.height as real)
    ensures forall strip :: strip in BorderStrips(b) ==> s.averageRed(BorderRange, strip) <= 50.0
  {
    DialogBoxesSound(s);
  }

  /** The edge margin and the size floor keep all four strips non-empty and
      inside the screen, so sampling them never leaves the frame. */
  lemma StripsInsideFrame(b: FloatBox)
    requires !TouchesEdge(b) && !TooSmallBox(b)
    ensures forall strip :: strip in BorderStrips(b) ==>
      strip.InsideFrame() && strip.width > 0.0 && strip.height > 0.0
  {
  }

  /** The overlap test is symmetric and fails exactly for separated boxes. */
  lemma OverlapsIsSymmetric(a: FloatBox, b: FloatBox)
    ensures Overlaps(a, b) == Overlaps(b, a)
    ensures !Overlaps(a, b) <==> Separated(a, b)
  {
  }
}
