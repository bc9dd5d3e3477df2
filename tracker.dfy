// The page's mutable state (the position window and the current fix) and the
// operations that update or read it: the live update, the historical
// bootstrap and the zoom handler.

module Tracker {
  import opened Positions
  import opened History
  import opened MarkerIcon

  class PositionTracker {
    /** `issCoordinates`: the position window. */
    var window: seq<Position>
    /** `currentLatitude`, `currentLongitude`: the current fix. */
    var currentLatitude: real
    var currentLongitude: real

    /** The page's initial state: an empty window and the fix at (0, 0). */
    constructor ()
      ensures window == [] && currentLatitude == 0.0 && currentLongitude == 0.0
    {
      window := [];
      currentLatitude := 0.0;
      currentLongitude := 0.0;
    }

    /** The live update with the fetched `latitude` and `longitude`. The clock is
        read twice: `fixTime` stamps the new entry, `pruneTime` sets the cutoff.
        Returns the trail that is drawn. */
    method GetIss(latitude: real, longitude: real, fixTime: int, pruneTime: int)
      returns (trail: seq<Point>)
      modifies this
      ensures currentLatitude == latitude && currentLongitude == longitude
      ensures window == Prune(old(window) + [Position(latitude, longitude, fixTime)], Cutoff(pruneTime))
      ensures trail == Trail(window)
      ensures forall i :: 0 <= i < |window| ==> window[i].timestamp > Cutoff(pruneTime)
      ensures SubsequenceOf(window, old(window) + [Position(latitude, longitude, fixTime)])
      ensures fixTime > Cutoff(pruneTime) ==>
                window == Prune(old(window), Cutoff(pruneTime)) + [Position(latitude, longitude, fixTime)]
                && trail == Trail(Prune(old(window), Cutoff(pruneTime))) + [Point(latitude, longitude)]
      ensures fixTime <= Cutoff(pruneTime) ==> window == Prune(old(window), Cutoff(pruneTime))
      ensures Chronological(old(window)) && NoneLaterThan(old(window), fixTime) ==> Chronological(window)
    {
      currentLatitude := latitude;
      currentLongitude := longitude;

      var pushed := window + [Position(latitude, longitude, fixTime)];
      window := pushed;

      var twentyFourHoursAgo := Cutoff(pruneTime);
      window := Prune(window, twentyFourHoursAgo);

      trail := Trail(window);

      PruneIsSubsequence(pushed, twentyFourHoursAgo);
      if fixTime > twentyFourHoursAgo {
        PrunePushFresh(old(window), Position(latitude, longitude, fixTime), twentyFourHoursAgo);
        TrailAppend(Prune(old(window), twentyFourHoursAgo), [Position(latitude, longitude, fixTime)]);
      } else {
        PrunePushExpired(old(window), Position(latitude, longitude, fixTime), twentyFourHoursAgo);
      }
      if Chronological(old(window)) && NoneLaterThan(old(window), fixTime) {
        PushPruneChronological(old(window), Position(latitude, longitude, fixTime), twentyFourHoursAgo);
      }
    }

    /** The historical bootstrap at clock `nowMs`, given the server's response
        `data`. Returns the sample times of the request and the trail drawn. The
        window is replaced whole; the current fix is left alone. */
    method GetPastPositions(nowMs: int, data: seq<PastRecord>)
      returns (request: seq<int>, trail: seq<Point>)
      modifies this
      ensures request == SampleTimes(nowMs)
      ensures window == FromRecords(data)
      ensures trail == Trail(window)
      ensures currentLatitude == old(currentLatitude) && currentLongitude == old(currentLongitude)
    {
      var now := EpochSeconds(nowMs);
      request := Reverse(Countdown(now));
      window := FromRecords(data);
      trail := Trail(window);
    }

    /** The zoom handler at zoom level `zoom`: the map is re-centred on the
        current fix at that zoom, and the icon is resized. Nothing is changed. */
    method UpdateView(zoom: int) returns (center: Point, viewZoom: int, icon: Icon)
      ensures center == Point(currentLatitude, currentLongitude)
      ensures viewZoom == zoom
      ensures icon.width == icon.height == IconSize(zoom)
      ensures 2.0 * icon.anchorX == icon.width as real && icon.anchorY == icon.anchorX
    {
      center := Point(currentLatitude, currentLongitude);
      viewZoom := zoom;
      icon := IconFor(zoom);
    }
  }

  /** A live update followed by a zoom change re-centres the view on exactly
      the fetched point, whatever the state before. */
  method LiveFixThenZoom(tracker: PositionTracker, latitude: real, longitude: real,
                         fixTime: int, pruneTime: int, zoom: int)
    returns (center: Point)
    modifies tracker
    ensures center == Point(latitude, longitude)
  {
    var _ := tracker.GetIss(latitude, longitude, fixTime, pruneTime);
    var viewZoom, icon;
    center, viewZoom, icon := tracker.UpdateView(zoom);
  }
}
