# Dialog bubbles, map menus and the auction farmer

A Dafny model of three pieces of the Pokémon Scarlet/Violet automation
programs:

- **The dialog-bubble detector** (`DialogBubbleDetector`,
  `DialogBubbleWatcher`). It finds the yellow, orange-rimmed speech bubbles
  that auction NPCs show in the overworld. A first waterfill pass over an
  orange colour band yields border components. Each one at least
  `floor(100·W/1920)` × `floor(70·H/1080)` pixels is cropped, and a second
  pass over a yellow band runs inside it. Every yellow component is mapped
  back to full-screen coordinates and goes through the rejection rules:
  - the screen-edge margin;
  - the mini-map corner;
  - the size envelope and the aspect ratio;
  - the four border strips, whose average red must not exceed 50;
  - a closed-interval overlap test against the bubbles already kept.

  The survivors are kept in scan order. Module `DialogBubbleRules` states
  each rule as a predicate and the whole selection as a fold (`SelectFrom`)
  over the candidates in scan order. Module `DialogBubble` holds the
  detector's methods, with their loops, proved against that fold. It also
  holds the watcher, a class whose `ProcessFrame` replaces its hits and
  overlay handles.
- **The map menu detectors** (`MapFlyMenuDetector`,
  `MapDestinationMenuDetector` and their watchers). Each is a two-box test
  over an `isWhite` oracle. The two detectors share one screen box, so they
  never fire on the same frame.
- **The auction farmer's decision helpers**:
  - offer-list equality as multisets;
  - target matching, including the Japanese bottle-cap rule;
  - the dialog-centre tolerance and its mirror symmetry;
  - the column-then-row order of bubble centres;
  - the plurality vote over ten bid readings;
  - the first-match lookup of the wanted offer;
  - the ten-attempt retry when talking to the auctioneer.

The image machinery is carried by a `Screen` value as functions the model
does not look inside:
- `waterfill(region, colorRange, minArea)` returns the components in scan order;
- `toFloat` stands for `pixelbox_to_floatbox`;
- `translate` stands for `translate_to_parent`;
- `averageRed(colorRange, strip)` is the red average of a strip of the
  black-and-white image.

Coordinates are reals, and the `size_t` cast of a non-negative double is
`.Floor`.

Modules: `Geometry` (boxes), `Overlay` (colours, overlay sets and handles),
`DialogBubbleRules`, `DialogBubble`, `MapMenu`, `CenterOrder` (the bubble
centre order) and `AuctionFarmer`.

## Model

| member | source | states |
|---|---|---|
| DialogBubbleRules.MinSizesAreIntegerFloors | SerialPrograms/Source/PokemonSV/Inference/Dialogs/PokemonSV_DialogBubbleDetector.cpp:51-58 | The minimum border size is the integer floor of 100·W/1920 by 70·H/1080 pixels. |
| DialogBubbleRules.MinSizesAtCommonResolutions | SerialPrograms/Source/PokemonSV/Inference/Dialogs/PokemonSV_DialogBubbleDetector.cpp:51-58 | The minimum is 100×70 at 1920×1080 and 66×46 at 1280×720. |
| DialogBubbleRules.FillBoxes | SerialPrograms/Source/PokemonSV/Inference/Dialogs/PokemonSV_DialogBubbleDetector.cpp:92-94 | Each yellow component gives exactly one candidate: its box translated into the border's parent frame, in scan order. |
| DialogBubbleRules.CandidatesOfMembership | SerialPrograms/Source/PokemonSV/Inference/Dialogs/PokemonSV_DialogBubbleDetector.cpp:67-94 | A box is a candidate iff it is the translation of a yellow component found inside a border component that is not too small. |
| DialogBubbleRules.CandidateProvenance | SerialPrograms/Source/PokemonSV/Inference/Dialogs/PokemonSV_DialogBubbleDetector.cpp:63-94 | The same, for the components of the first pass over the orange band (minimum area 50), each searched for yellow components (minimum area 300). |
| DialogBubbleRules.SelectFromExtends | SerialPrograms/Source/PokemonSV/Inference/Dialogs/PokemonSV_DialogBubbleDetector.cpp:141-152 | The list is append-only: the boxes already kept stay in front, unchanged, and the new ones are a subsequence of the candidates in scan order. |
| DialogBubbleRules.SelectFromAcceptable | SerialPrograms/Source/PokemonSV/Inference/Dialogs/PokemonSV_DialogBubbleDetector.cpp:105-152 | Only boxes that pass every rejection rule are added. |
| DialogBubbleRules.SelectFromSeparated | SerialPrograms/Source/PokemonSV/Inference/Dialogs/PokemonSV_DialogBubbleDetector.cpp:141-152 | The overlap test keeps the kept boxes pairwise strictly separated in x or in y. |
| DialogBubbleRules.SelectFromMaximal | SerialPrograms/Source/PokemonSV/Inference/Dialogs/PokemonSV_DialogBubbleDetector.cpp:141-152 | Every acceptable candidate that was not kept overlaps a box that was kept. |
| DialogBubbleRules.DialogBoxesSound | SerialPrograms/Source/PokemonSV/Inference/Dialogs/PokemonSV_DialogBubbleDetector.cpp:60-156 | The result of `detect_all` is acceptable, pairwise separated, a subsequence of the candidates, and maximal: every acceptable candidate left out meets a box that was kept. |
| DialogBubbleRules.SelectFromAppend | SerialPrograms/Source/PokemonSV/Inference/Dialogs/PokemonSV_DialogBubbleDetector.cpp:69-153 | Scanning two runs of candidates is scanning the first and carrying its kept boxes into the second. |
| DialogBubbleRules.FirstWins | SerialPrograms/Source/PokemonSV/Inference/Dialogs/PokemonSV_DialogBubbleDetector.cpp:141-152 | First wins: an acceptable candidate that meets none of the boxes kept before it is in the result, placed right after those boxes, and no later candidate displaces it. |
| DialogBubbleRules.AcceptedBoxBounds | SerialPrograms/Source/PokemonSV/Inference/Dialogs/PokemonSV_DialogBubbleDetector.cpp:100-139 | Every accepted box has x, y ≥ 0.001 and right and bottom edges < 0.999. None has both right edge ≥ 0.819 and bottom edge ≥ 0.679. Each has width ≥ 0.052, 0.065 ≤ height ≤ 0.13 and width·W ≥ height·H, and all four border strips have average red ≤ 50. |
| DialogBubbleRules.StripsInsideFrame | SerialPrograms/Source/PokemonSV/Inference/Dialogs/PokemonSV_DialogBubbleDetector.cpp:121-125 | For a box that passed the edge and size rules, the four strips lie inside the frame and have positive size. |
| DialogBubbleRules.OverlapsIsSymmetric | SerialPrograms/Source/PokemonSV/Inference/Dialogs/PokemonSV_DialogBubbleDetector.cpp:146 | The closed-interval overlap test is symmetric, and it fails exactly when the boxes are strictly separated in x or y. |
| DialogBubble.CheckBorder | SerialPrograms/Source/PokemonSV/Inference/Dialogs/PokemonSV_DialogBubbleDetector.cpp:127-136 | The short-circuit loop reports a bad border iff some strip has average red > 50. |
| DialogBubble.IsOverlapping | SerialPrograms/Source/PokemonSV/Inference/Dialogs/PokemonSV_DialogBubbleDetector.cpp:142-147 | The flag loop reports an overlap iff the candidate overlaps some box already found. |
| DialogBubble.ConsiderCandidate | SerialPrograms/Source/PokemonSV/Inference/Dialogs/PokemonSV_DialogBubbleDetector.cpp:95-152 | One candidate is either dropped or appended, exactly as one step of the selection fold. |
| DialogBubble.DialogBubbleDetector.DetectAll | SerialPrograms/Source/PokemonSV/Inference/Dialogs/PokemonSV_DialogBubbleDetector.cpp:41-157 | The nested waterfill loops return the selection fold over the candidates, whatever the detector's colour and box. The result is acceptable and pairwise separated. |
| DialogBubble.DialogBubbleDetector.Detect | SerialPrograms/Source/PokemonSV/Inference/Dialogs/PokemonSV_DialogBubbleDetector.cpp:36-39 | `detect` is true iff `detect_all` finds at least one bubble. |
| DialogBubble.DialogBubbleDetector.MakeOverlays | SerialPrograms/Source/PokemonSV/Inference/Dialogs/PokemonSV_DialogBubbleDetector.cpp:32-34 | Exactly the configured box is added, in the configured colour. |
| DialogBubble.DialogBubbleWatcher.constructor | SerialPrograms/Source/PokemonSV/Inference/Dialogs/PokemonSV_DialogBubbleDetector.cpp:165-169 | The watcher starts with its detector configured and no hits. |
| DialogBubble.DialogBubbleWatcher.MakeOverlays | SerialPrograms/Source/PokemonSV/Inference/Dialogs/PokemonSV_DialogBubbleDetector.cpp:171-173 | The watcher forwards to its detector's overlay. |
| DialogBubble.DialogBubbleWatcher.FoundLocations | SerialPrograms/Source/PokemonSV/Inference/Dialogs/PokemonSV_DialogBubbleDetector.h:52 | `found_locations` is the stored hits. |
| DialogBubble.DialogBubbleWatcher.ProcessFrame | SerialPrograms/Source/PokemonSV/Inference/Dialogs/PokemonSV_DialogBubbleDetector.cpp:175-183 | The hits are replaced by this frame's `detect_all`, and earlier hits are dropped. There is one magenta handle per hit, on that hit's box. The result is true iff there is a hit. |
| MapMenu.MapFlyMenuDetector.Detect | SerialPrograms/Source/PokemonSV/Inference/Map/PokemonSV_MapMenuDetector.cpp:22-40 | True iff the middle box (0.523, 0.680, 0.080, 0.010) and the bottom box (0.523, 0.744, 0.080, 0.020) are both white. |
| MapMenu.MapFlyMenuDetector.MakeOverlays | SerialPrograms/Source/PokemonSV/Inference/Map/PokemonSV_MapMenuDetector.cpp:28-31 | Exactly the middle box and then the bottom box are added. |
| MapMenu.MapDestinationMenuDetector.Detect | SerialPrograms/Source/PokemonSV/Inference/Map/PokemonSV_MapMenuDetector.cpp:60-78 | True iff box (0.523, 0.670, 0.080, 0.020) is white and the fly-menu box (0.523, 0.744, 0.080, 0.020) is not. |
| MapMenu.MapDestinationMenuDetector.MakeOverlays | SerialPrograms/Source/PokemonSV/Inference/Map/PokemonSV_MapMenuDetector.cpp:66-69 | Exactly the bottom box and then the fly-menu box are added. |
| MapMenu.MapFlyMenuWatcher.ProcessFrame | SerialPrograms/Source/PokemonSV/Inference/Map/PokemonSV_MapMenuDetector.cpp:55-57 | The watcher returns the fly detector's verdict, whatever the timestamp. |
| MapMenu.MapFlyMenuWatcher.MakeOverlays | SerialPrograms/Source/PokemonSV/Inference/Map/PokemonSV_MapMenuDetector.cpp:51-53 | The watcher forwards to its detector's overlays. |
| MapMenu.MapDestinationMenuWatcher.ProcessFrame | SerialPrograms/Source/PokemonSV/Inference/Map/PokemonSV_MapMenuDetector.cpp:93-95 | The watcher returns the destination detector's verdict, whatever the timestamp. |
| MapMenu.MapDestinationMenuWatcher.MakeOverlays | SerialPrograms/Source/PokemonSV/Inference/Map/PokemonSV_MapMenuDetector.cpp:89-91 | The watcher forwards to its detector's overlays. |
| MapMenu.WatchersAreExclusive | SerialPrograms/Source/PokemonSV/Inference/Map/PokemonSV_MapMenuDetector.cpp:55-95 | On one frame the two menu watchers never both fire, whatever their timestamps. |
| MapMenu.MenusAreExclusive | SerialPrograms/Source/PokemonSV/Inference/Map/PokemonSV_MapMenuDetector.cpp:25-78 | The fly detector's bottom box is the destination detector's fly-menu box, so the two never both detect on one frame. |
| AuctionFarmer.DetectDialogBoxes | SerialPrograms/Source/PokemonSV/Programs/Farming/PokemonSV_AuctionFarmer.cpp:116-120 | A whole-screen detector returns the selected bubbles, pairwise separated. |
| AuctionFarmer.AreOffersEqual | SerialPrograms/Source/PokemonSV/Programs/Farming/PokemonSV_AuctionFarmer.cpp:197-208 | True iff both lists have the same length and equal multisets of item names. |
| AuctionFarmer.OffersEqualIsEquivalence | SerialPrograms/Source/PokemonSV/Programs/Farming/PokemonSV_AuctionFarmer.cpp:197-208 | Offer equality is reflexive, symmetric and transitive. |
| AuctionFarmer.OffersEqualIgnoresOrderAndBoxes | SerialPrograms/Source/PokemonSV/Programs/Farming/PokemonSV_AuctionFarmer.cpp:197-208 | For every offer list, swapping two offers or replacing every bubble box gives an equal list. |
| AuctionFarmer.OffersEqualCountsRepeats | SerialPrograms/Source/PokemonSV/Programs/Farming/PokemonSV_AuctionFarmer.cpp:199-205 | Two lists holding some item a different number of times are never equal. |
| AuctionFarmer.IsGoodOffer | SerialPrograms/Source/PokemonSV/Programs/Farming/PokemonSV_AuctionFarmer.cpp:210-219 | An offer is good iff its item is selected, or the language is Japanese, the item is a bottle cap and either cap is selected. |
| AuctionFarmer.GoodOfferOutsideJapanese | SerialPrograms/Source/PokemonSV/Programs/Farming/PokemonSV_AuctionFarmer.cpp:210-219 | Outside Japanese an offer is good iff its item is selected. |
| AuctionFarmer.BottleCapsInterchangeableInJapanese | SerialPrograms/Source/PokemonSV/Programs/Farming/PokemonSV_AuctionFarmer.cpp:211-218 | In Japanese the two caps get the same verdict, and selecting more items never turns a good offer bad. |
| AuctionFarmer.BubbleCenter | SerialPrograms/Source/PokemonSV/Programs/Farming/PokemonSV_AuctionFarmer.cpp:262-265 | The centre is equally far from the left and right edges, and from the top and bottom edges. |
| AuctionFarmer.DetectSortedDialogCenters | SerialPrograms/Source/PokemonSV/Programs/Farming/PokemonSV_AuctionFarmer.cpp:315-336 | The result is a permutation of the detected bubbles' centres. Left-column centres come first, and each column is by ascending y. With no centre on x = 0.5, no pair is inverted under the comparator as written. |
| AuctionFarmer.IsGoodDialogCenter | SerialPrograms/Source/PokemonSV/Programs/Farming/PokemonSV_AuctionFarmer.cpp:425-437 | Good iff x is ignored or within alpha of the optimum or its mirror, and likewise y. |
| AuctionFarmer.DialogCenterMirrorSymmetry | SerialPrograms/Source/PokemonSV/Programs/Farming/PokemonSV_AuctionFarmer.cpp:433-434 | The verdict is unchanged by mirroring x, y or both through 0.5. |
| AuctionFarmer.DefaultToleranceWindows | SerialPrograms/Source/PokemonSV/Programs/Farming/PokemonSV_AuctionFarmer.cpp:97-100 | With the default options, good means x in [0.24, 0.28] ∪ [0.72, 0.76] and y in [0.22, 0.26] ∪ [0.74, 0.78]. |
| AuctionFarmer.CountIsMultiplicity | SerialPrograms/Source/PokemonSV/Programs/Farming/PokemonSV_AuctionFarmer.cpp:453-465 | The count the vote keeps for a value is that value's multiplicity among the readings. |
| AuctionFarmer.CountGrows | SerialPrograms/Source/PokemonSV/Programs/Farming/PokemonSV_AuctionFarmer.cpp:462-465 | A reading's count never decreases as more readings come in. |
| AuctionFarmer.VoteStep | SerialPrograms/Source/PokemonSV/Programs/Farming/PokemonSV_AuctionFarmer.cpp:458-470 | One reading keeps the invariant: the map counts the readings so far, and the highest count belongs to the value that reached it first. |
| AuctionFarmer.VoteResult | SerialPrograms/Source/PokemonSV/Programs/Farming/PokemonSV_AuctionFarmer.cpp:467-475 | After all readings the value held is a reading with the largest count, and no value reached that count earlier. |
| AuctionFarmer.ReadNextBid | SerialPrograms/Source/PokemonSV/Programs/Farming/PokemonSV_AuctionFarmer.cpp:450-476 | Of the ten readings, the result is one with the largest count. On a tie it is the one whose count reached the maximum first, because the update is a strict `>`. |
| AuctionFarmer.FindTarget | SerialPrograms/Source/PokemonSV/Programs/Farming/PokemonSV_AuctionFarmer.cpp:247-260 | Succeeds iff some offer has the wanted item, and then returns the first such offer. Otherwise it fails with "Lost offer dialog for wanted item: " and the item. |
| AuctionFarmer.MoveToAuctioneer | SerialPrograms/Source/PokemonSV/Programs/Farming/PokemonSV_AuctionFarmer.cpp:222-245 | At most ten attempts. Without `ONE_NPC` each attempt first moves to the bubble. The result is the first attempt whose move completed and whose wait gives 0. If a move loses the offer's bubble, it fails at once with "Lost offer dialog for wanted item: " and the item, after only failed attempts. After ten failed attempts it fails with "Too many attempts to talk to the NPC.". `is_new_position_east` is what the last completed move reported, and it is untouched with `ONE_NPC`. |
| CenterOrder.AsWrittenNotStrictWeakOrder | SerialPrograms/Source/PokemonSV/Programs/Farming/PokemonSV_AuctionFarmer.cpp:328-333 | With a centre on x = 0.5, incomparability under the comparator as written is not transitive. |
| CenterOrder.CenterBeforeAgreesOffMidline | SerialPrograms/Source/PokemonSV/Programs/Farming/PokemonSV_AuctionFarmer.cpp:328-333 | Away from x = 0.5 the corrected comparator is the one written. |
| CenterOrder.CenterBeforeIsStrictWeakOrder | SerialPrograms/Source/PokemonSV/Programs/Farming/PokemonSV_AuctionFarmer.cpp:328-333 | The corrected comparator is irreflexive and transitive, and its incomparability is transitive. |
| CenterOrder.Insert | SerialPrograms/Source/PokemonSV/Programs/Farming/PokemonSV_AuctionFarmer.cpp:328 | Insertion adds exactly the one centre. |
| CenterOrder.InsertOrdered | SerialPrograms/Source/PokemonSV/Programs/Farming/PokemonSV_AuctionFarmer.cpp:328 | Inserting into an ordered list keeps it ordered. |
| CenterOrder.SortCenters | SerialPrograms/Source/PokemonSV/Programs/Farming/PokemonSV_AuctionFarmer.cpp:328-333 | The sort returns a permutation of its input, ordered by the corrected comparator. |
| CenterOrder.OrderedMeansColumnsThenRows | SerialPrograms/Source/PokemonSV/Programs/Farming/PokemonSV_AuctionFarmer.cpp:325-333 | An ordered list has the left column first and each column by ascending y. With no centre on x = 0.5, it is also sorted under the comparator as written. |

## Left out

- The waterfill kernels, `compress_rgb32_to_binary_range`, `to_blackwhite_rgb32_range`, `image_average`, `image_stats`, `is_white` and `extract_box_reference` are oracles in the `Screen` and `MenuScreen` values. Their implementations are not part of this model.
- `pixelbox_to_floatbox` and `translate_to_parent` are uninterpreted functions, so no formula for them is assumed. The crop handed to the second pass is the border component's pixel box.
- Image pixels, colours as drawn, and the 32-bit colour thresholds appear only as constants passed to the oracles.
- IEEE single and double rounding is not modelled. Coordinates are reals and `size_t` truncation is `.Floor`.
- The timestamp passed to `process_frame` is a parameter of `ProcessFrame` that nothing reads, as none of the three `process_frame` functions reads it.
- `MapFlyMenuDetector.Detect` and `MapDestinationMenuDetector.Detect`: the short-circuit, which skips the second box when the first is not white, is kept in the bodies only. With a pure `isWhite` it is not observable.
- `OverlayBoxScope` handles are values. Their drawing and their removal when the handle is dropped are not modelled.
- `wait_until` is an oracle `waitUntil(k)` giving the k-th wait's result. The wait multiplexer, its timeout and concurrency are not part of this model.
- `move_to_dialog` is an oracle `moveToDialog(k)` in `MoveToAuctioneer`. It gives how the k-th call ended: moved, with the east flag of line 308, or lost the bubble in `find_target`. Its joystick steering is left out. Its rule that x < 0.5 goes left informs the corrected comparator.
- OCR (`AuctionItemNameReader`, `OCR::read_number`) is left out. Readings are inputs, and `ReadNextBid` takes the ten readings as a sequence.
- `check_offers` (OCR over each bubble) is left out. `FindTarget` takes its result as input.
- `TARGET_ITEMS.find_item` is set membership over the selected item slugs.
- Button and joystick commands, `reset_auctions`, `reset_position`, `bid_on_item`, the game-reset loops, notifications and statistics are controller I/O with nothing to prove.
- `PokemonSwSh_DailyHighlightRNG.cpp` is left out. It depends on a random-number generator and a database that are not part of this model.
- `std::sort` is modelled by insertion sort under the corrected comparator. The result is pinned down up to the order of incomparable centres, which `std::sort` leaves unspecified too.

## Findings

| source | as written | input that shows it | evidently intended | confidence | as-written member | corrected member |
|---|---|---|---|---|---|---|
| SerialPrograms/Source/PokemonSV/Programs/Farming/PokemonSV_AuctionFarmer.cpp:328-333 | The comparator passed to `std::sort` puts a centre with x exactly 0.5 in neither column, so it is incomparable with every centre on either side. Incomparability is then not transitive, the comparator is not a strict weak order, and `std::sort` has undefined behaviour. | Centres (0.25, 0.7), (0.5, 0.5), (0.25, 0.3): the middle one is incomparable with both others, yet (0.25, 0.3) sorts before (0.25, 0.7). | A centre on x = 0.5 belongs to the right column, as `move_to_dialog` steers right for it (line 311). Then left column first and ascending y within a column. | low: exact 0.5 needs a bubble centred to the last bit; not executed | CenterOrder.AsWrittenNotStrictWeakOrder | CenterOrder.CenterBeforeIsStrictWeakOrder |
