/** The map-menu detectors: the fly menu and the destination menu, each a
    test of two fixed boxes for whiteness, and their watchers. */
module MapMenu {
  import opened Geometry
  import opened Overlay

  /** A frame as the map detectors see it: whether the `image_stats` of the
      frame cropped to a box pass `is_white`. */
  datatype MenuScreen = MenuScreen(isWhite: FloatBox -> bool)

  const FlyMiddleBox := FloatBox(0.523, 0.680, 0.080, 0.010)
  const FlyBottomBox := FloatBox(0.523, 0.744, 0.080, 0.020)
  const DestinationBottomBox := FloatBox(0.523, 0.670, 0.080, 0.020)
  const DestinationFlyMenuBox := FloatBox(0.523, 0.744, 0.080, 0.020)

  /** `MapFlyMenuDetector`: the "Fly" menu is open. */
  datatype MapFlyMenuDetector = MapFlyMenuDetector(color: Color) {
    const middleBox := FlyMiddleBox
    const bottomBox := FlyBottomBox

    method MakeOverlays(items: VideoOverlaySet)
      modifies items
      ensures items.items == old(items.items) + [OverlayItem(color, FlyMiddleBox), OverlayItem(color, FlyBottomBox)]
    {
      items.Add(color, middleBox);
      items.Add(color, bottomBox);
    }

    /** The bottom box is sampled only when the middle one is white. */
    function Detect(screen: MenuScreen): (detected: bool)
      ensures detected <==> screen.isWhite(FlyMiddleBox) && screen.isWhite(FlyBottomBox)
    {
      if !screen.isWhite(middleBox) then false
      else screen.isWhite(bottomBox)
    }
  }

  /** `MapDestinationMenuDetector`: the destination menu is open, and the fly
      menu below it is not. */
  datatype MapDestinationMenuDetector = MapDestinationMenuDetector(color: Color) {
    const bottomBox := DestinationBottomBox
    const flyMenuBox := DestinationFlyMenuBox

    method MakeOverlays(items: VideoOverlaySet)
      modifies items
      ensures items.items == old(items.items)
        + [OverlayItem(color, DestinationBottomBox), OverlayItem(color, DestinationFlyMenuBox)]
    {
      items.Add(color, bottomBox);
      items.Add(color, flyMenuBox);
    }

    /** The fly-menu box is sampled only when the bottom box is white. */
    function Detect(screen: MenuScreen): (detected: bool)
      ensures detected <==> screen.isWhite(DestinationBottomBox) && !screen.isWhite(DestinationFlyMenuBox)
    {
      if !screen.isWhite(bottomBox) then false
      else !screen.isWhite(flyMenuBox)
    }
  }

  /** `MapFlyMenuWatcher`: forwards each frame to its detector. */
  datatype MapFlyMenuWatcher = MapFlyMenuWatcher(detector: MapFlyMenuDetector) {
    method MakeOverlays(items: VideoOverlaySet)
      modifies items
      ensures items.items == old(items.items)
        + [OverlayItem(detector.color, FlyMiddleBox), OverlayItem(detector.color, FlyBottomBox)]
    {
      detector.MakeOverlays(items);
    }

    /** The timestamp plays no part. */
    function ProcessFrame(screen: MenuScreen, timestamp: int): (detected: bool)
      ensures detected <==> screen.isWhite(FlyMiddleBox) && screen.isWhite(FlyBottomBox)
    {
      detector.Detect(screen)
    }
  }

  /** `MapDestinationMenuWatcher`: forwards each frame to its detector. */
  datatype MapDestinationMenuWatcher = MapDestinationMenuWatcher(detector: MapDestinationMenuDetector) {
    method MakeOverlays(items: VideoOverlaySet)
      modifies items
      ensures items.items == old(items.items)
        + [OverlayItem(detector.color, DestinationBottomBox), OverlayItem(detector.color, DestinationFlyMenuBox)]
    {
      detector.MakeOverlays(items);
    }

    /** The timestamp plays no part. */
    function ProcessFrame(screen: MenuScreen, timestamp: int): (detected: bool)
      ensures detected <==> screen.isWhite(DestinationBottomBox) && !screen.isWhite(DestinationFlyMenuBox)
    {
      detector.Detect(screen)
    }
  }

  /** The fly detector's bottom box is the destination detector's fly-menu
      box, so on one frame at most one of the two menus is reported. */
  lemma MenusAreExclusive(fly: MapFlyMenuDetector, destination: MapDestinationMenuDetector, screen: MenuScreen)
    ensures fly.bottomBox == destination.flyMenuBox
    ensures !(fly.Detect(screen) && destination.Detect(screen))
  {
  }

  /** Watching the same frame, the fly-menu watcher and the destination-menu
      watcher never both fire, whatever their timestamps. */
  lemma WatchersAreExclusive(fly: MapFlyMenuWatcher, destination: MapDestinationMenuWatcher,
                             screen: MenuScreen, flyTime: int, destinationTime: int)
    ensures !(fly.ProcessFrame(screen, flyTime) && destination.ProcessFrame(screen, destinationTime))
  {
    MenusAreExclusive(fly.detector, destination.detector, screen);
  }
}
