# ISS live-location tracker: a Dafny model of its position window

The page polls the current position of the International Space Station,
keeps the positions of the last 24 hours in a window, draws them as a trail,
and resizes the marker icon when the map zoom changes. This project models
the bookkeeping behind that, from `index.js`:

- the **live update** (`getISS`): overwrite the current fix, push the new
  position stamped with the clock, drop every entry not strictly later than
  24 hours before a second clock read, and project the window to the trail;
- the **historical bootstrap** (`getPastPositions`): build the 2880 sample
  times (every 30 s over 24 h, oldest first) sent with the request, replace
  the window whole with the server's records (seconds turned into
  milliseconds), and project it to the trail;
- **icon sizing** (`updateIconSize`): edge `32 + 5 * zoom`, anchored at its centre;
- the **zoom handler** (`updateView`): re-centre on the current fix.

Layout:

- `positions.dfy`, module `Positions`: the window entries, the prune filter,
  the trail projection, the record conversion, and their lemmas.
- `history.dfy`, module `History`: the bootstrap's sample-time list and how
  the bootstrap window meets the live prune.
- `icon.dfy`, module `MarkerIcon`: icon size and anchor.
- `tracker.dfy`, module `Tracker`: class `PositionTracker` holding the
  page's mutable state (`issCoordinates`, `currentLatitude`,
  `currentLongitude`), with the three operations as methods.

Modelling choices:

- Latitude and longitude are `real` values that are only copied, never
  computed on, as in the source.
- Timestamps are `int` milliseconds; JavaScript `Date` comparison compares
  these numbers.
- `getISS` reads the clock twice: `new Date()` stamps the entry (index.js:38)
  and `Date.now()` sets the cutoff (index.js:42). The model takes both
  readings as independent parameters `fixTime` and `pruneTime`, with no
  assumed order between them, since a wall clock can step backwards. The
  properties about the new entry are stated under the condition
  `fixTime > pruneTime - 86400000`, which holds whenever the two readings are
  less than 24 hours apart.
- `Math.floor(Date.now() / 1000)` is Dafny's `/ 1000`, which rounds toward
  negative infinity for a positive divisor, as `Math.floor` does.
- `size / 2` for the anchor is a `real`, since it is 28.5 for a 57-pixel icon.
- The fetched data, the clock and the zoom level are parameters of the
  methods. The trail that Leaflet would draw is returned as its list of
  points, and so are the view centre and the icon of the zoom handler.
- `Array.prototype.filter`, `map` and `reverse` are recursive functions,
  proved against element-wise characterisations.

The current fix is `currentLatitude` and `currentLongitude`
(index.js:21-22, 29-30); velocity goes only to the display (index.js:35), so
it is not modelled.

## Model

| member | source | states |
|---|---|---|
| `Positions.Prune` | index.js:42-43 | the filtered window is no longer than the input and every entry in it is strictly later than the cutoff |
| `Positions.PruneKeepsExactly` | index.js:43 | an entry is in the pruned window if and only if it was in the window and its timestamp is strictly greater than the cutoff, so an entry exactly 24 h old is dropped |
| `Positions.PruneDropsOnlyExpired` | index.js:43 | every entry the filter drops had a timestamp at or before the cutoff |
| `Positions.PruneMultiplicity` | index.js:43 | each entry above the cutoff keeps its multiplicity, and each entry at or below it has none left |
| `Positions.PruneIsSubsequence` | index.js:43 | the survivors keep their relative order: the pruned window is a subsequence of the window |
| `Positions.PruneAppend` | index.js:39-43 | filtering distributes over concatenation |
| `Positions.PruneAllFresh` | index.js:43 | a window whose entries are all above the cutoff is left unchanged |
| `Positions.PruneTwice` | index.js:43 | pruning with one cutoff and then another equals one prune with the later cutoff |
| `Positions.PruneIdempotent` | index.js:43 | pruning an already-pruned window again with the same cutoff changes nothing |
| `Positions.PrunePushFresh` | index.js:38-43 | a pushed entry later than the cutoff survives as the last entry, after the old window's survivors in order |
| `Positions.PrunePushExpired` | index.js:38-43 | a pushed entry at or before the cutoff is dropped, leaving the old window's survivors |
| `Positions.PruneChronological` | index.js:43 | pruning keeps a window ordered oldest first |
| `Positions.PushPruneChronological` | index.js:38-43 | pushing an entry no earlier than all stored ones and then pruning keeps the window ordered oldest first |
| `Positions.Trail` | index.js:46 | the trail has as many points as the window, and point i is window entry i's (latitude, longitude) |
| `Positions.TrailAppend` | index.js:39-46 | the projection distributes over concatenation, so the live trail is the old survivors' trail followed by the new point |
| `Positions.FromRecords` | index.js:68-72 | the converted window has the response's length and order, and entry i carries record i's latitude and longitude and timestamp times 1000 |
| `Positions.TrailOfRecords` | index.js:68-75 | the bootstrap trail is the response's own (latitude, longitude) pairs, in response order |
| `Positions.FromRecordsChronological` | index.js:68-72 | a response sorted by time gives a window ordered oldest first |
| `Positions.LiveUpdateExample` | index.js:38-46 | over entries 25 h, 24 h, 23 h and 1 h old, a live update at t keeps the 23 h and 1 h entries and the new fix, and the trail has 3 points |
| `History.EpochSeconds` | index.js:63 | the seconds value is the floor of the milliseconds clock divided by 1000 |
| `History.Countdown` | index.js:64 | the list as first built has 2880 entries, starts at now and steps back 30 s at each entry |
| `History.SampleTimes` | index.js:64 | the reversed list sent with the request has 2880 entries |
| `History.Reverse` | index.js:64 | the reversed list has the same length and element i is element length-1-i of the input |
| `History.SampleTimesShape` | index.js:64 | the request list has exactly 2880 entries, the first is now - 2879*30, the last is now, entry j is now - (2879-j)*30, and consecutive entries differ by 30 |
| `History.SampleTimesIncreasing` | index.js:64 | the request list is strictly increasing and lies within the 24 hours up to now |
| `History.BootstrapWindowShape` | index.js:63-72 | when the server answers sample for sample, the bootstrap window has 2880 entries, oldest first, 30000 ms apart, the newest at now seconds times 1000 |
| `History.BootstrapSurvivesEarlyPrune` | index.js:42-43 | a live prune leaves such a bootstrap window whole if and only if the prune clock is less than 30 s past the bootstrap's whole second |
| `MarkerIcon.IconFor` | index.js:86-90 | the icon is square with edge 32 + 5*zoom, and both anchor coordinates are half the edge |
| `MarkerIcon.IconSizeIncreasing` | index.js:86 | the edge grows strictly with the zoom level, by 5 pixels per step |
| `MarkerIcon.IconSizeInZoomRange` | index.js:13 | at the zoom levels the tile layer allows (0 to 10) the edge is between 32 and 82 pixels |
| `MarkerIcon.IconAtZoomFive` | index.js:86-90 | zoom 5 gives a 57-pixel icon anchored at (28.5, 28.5) |
| `Tracker.PositionTracker.constructor` | index.js:19-22 | the page starts with an empty window and the current fix at (0, 0) |
| `Tracker.PositionTracker.GetIss` | index.js:24-46 | the fix becomes the fetched point; the window becomes the old window plus the new entry, pruned by the cutoff; every kept entry is later than the cutoff; order is kept; the new entry is last exactly when it is above the cutoff, and the trail is then the old survivors' trail followed by the fetched point; an ordered window stays ordered when the new fix is no earlier than every stored entry; the trail is the window's projection |
| `Tracker.PositionTracker.GetPastPositions` | index.js:62-75 | the request list is the 2880 sample times; the window is replaced whole by the converted response, whatever it held before; the trail is its projection; the fix is unchanged |
| `Tracker.PositionTracker.UpdateView` | index.js:84-98 | the view is centred on the current fix at the given zoom, and the icon is square with edge 32 + 5*zoom, anchored at its centre; nothing changes |
| `Tracker.LiveFixThenZoom` | index.js:29-30 | after a live update, the next zoom change re-centres on exactly the fetched point |

## Left out

- `fetch`, `response.json()` and the two remote endpoints (index.js:9-10, 25-26, 65-66): network I/O. The fetched values are method parameters.
- The query string `timestamps.join(',')` (index.js:65): part of the request URL. The model returns the list of sample times itself.
- Leaflet: map, tile layer, marker, polyline, `removeLayer`, `setIcon`, `setView`, `getZoom` and the `zoomend` subscription (index.js:1-17, 32, 48-59, 76-81, 87-92, 96, 100): rendering in a library not modelled. The trail, view centre and icon are returned as values instead.
- The DOM `textContent` writes of latitude, longitude and velocity (index.js:33-35): display only. Velocity is therefore not modelled.
- `setInterval(getISS, 500)` and the start-up calls (index.js:102-104): timer and async scheduling. Overlapping fetches are not modelled. Neither is the race in which a late bootstrap overwrites live entries. In that race the bootstrap also replaces the `trail` handle without removing the live layer already drawn.
- Polyline styles and the initial icon `[50, 32]` (index.js:3-7, 55-58, 77-80): cosmetic.
- Error handling: the code has none. A failed fetch rejects that call's promise, and the timer keeps running.
- JavaScript `Date` edge cases: the model does not cover a timestamp outside the `Date` range, which becomes an invalid date. It does not cover non-integer server seconds either. Server timestamps are modelled as integers.
- Fractional zoom levels: `getZoom` is modelled as an integer.
