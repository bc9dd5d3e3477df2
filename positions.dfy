// The position window of the ISS tracker and the pure operations on it:
// pruning by the 24-hour retention cutoff, projection to the trail polyline,
// and conversion of the historical-positions response into window entries.

module Positions {

  /** The retention horizon of the live window: 24 hours, in milliseconds. */
  const HorizonMs: int := 24 * 60 * 60 * 1000

  /** One stored sample of the window. Latitude and longitude are only ever
      copied, never computed on; the timestamp is in milliseconds since the epoch. */
  datatype Position = Position(latitude: real, longitude: real, timestamp: int)

  /** One `[latitude, longitude]` vertex of the trail polyline. */
  datatype Point = Point(lat: real, lon: real)

  /** One record of the historical-positions response; its timestamp is in
      epoch SECONDS, as the server sends it. */
  datatype PastRecord = PastRecord(latitude: real, longitude: real, timestamp: int)

  /** The pruning cutoff of a live update made at `now` milliseconds. */
  function Cutoff(now: int): (cutoff: int)
  {
    now - HorizonMs
  }

  /** The prune of the live update (index.js:43): keeps, in order, the
      entries strictly later than the cutoff. */
  function Prune(w: seq<Position>, cutoff: int): (r: seq<Position>)
    ensures |r| <= |w|
    ensures forall i :: 0 <= i < |r| ==> r[i].timestamp > cutoff
  {
    if |w| == 0 then []
    else (if w[0].timestamp > cutoff then [w[0]] else []) + Prune(w[1..], cutoff)
  }

  /** The trail of a window (index.js:46, 75): each entry's latitude and
      longitude, in window order. */
  function Trail(w: seq<Position>): (t: seq<Point>)
    ensures |t| == |w|
    ensures forall i :: 0 <= i < |w| ==> t[i] == Point(w[i].latitude, w[i].longitude)
  {
    if |w| == 0 then []
    else [Point(w[0].latitude, w[0].longitude)] + Trail(w[1..])
  }

  /** The bootstrap's conversion of the server's records (index.js:68-72):
      one entry per record, in order, with the coordinates copied and the
      seconds turned into milliseconds. */
  function FromRecords(data: seq<PastRecord>): (w: seq<Position>)
    ensures |w| == |data|
    ensures forall i :: 0 <= i < |data| ==>
              w[i] == Position(data[i].latitude, data[i].longitude, data[i].timestamp * 1000)
  {
    if |data| == 0 then []
    else [Position(data[0].latitude, data[0].longitude, data[0].timestamp * 1000)]
         + FromRecords(data[1..])
  }

  /** The window is ordered by observation time, oldest first. */
  ghost predicate Chronological(w: seq<Position>)
  {
    forall i, j :: 0 <= i < j < |w| ==> w[i].timestamp <= w[j].timestamp
  }

  /** No entry of the window is later than `t`. */
  ghost predicate NoneLaterThan(w: seq<Position>, t: int)
  {
    forall i :: 0 <= i < |w| ==> w[i].timestamp <= t
  }

  /** `a` is `b` with some entries removed, the rest in their original order. */
  ghost predicate SubsequenceOf(a: seq<Position>, b: seq<Position>)
    decreases |b|
  {
    if |a| == 0 then true
    else if |b| == 0 then false
    else (a[0] == b[0] && SubsequenceOf(a[1..], b[1..])) || SubsequenceOf(a, b[1..])
  }

  // ---------------------------------------------------------------------------
  // Pruning

  /** The filter keeps exactly the entries above the cutoff: an entry is
      retained if and only if it was in the window and is strictly later than
      the cutoff (so one exactly 24 hours old is dropped). */
  lemma {:induction false} PruneKeepsExactly(w: seq<Position>, cutoff: int, p: Position)
    ensures p in Prune(w, cutoff) <==> p in w && p.timestamp > cutoff
  {
    if |w| > 0 {
      PruneKeepsExactly(w[1..], cutoff, p);
      assert w == [w[0]] + w[1..];
    }
  }

  /** Every entry the filter drops was at or before the cutoff. */
  lemma PruneDropsOnlyExpired(w: seq<Position>, cutoff: int, i: int)
    requires 0 <= i < |w|
    requires w[i] !in Prune(w, cutoff)
    ensures w[i].timestamp <= cutoff
  {
    PruneKeepsExactly(w, cutoff, w[i]);
  }

  /** Duplicates are neither merged nor lost: an entry above the cutoff keeps
      its multiplicity, one at or below it disappears altogether. */
  lemma {:induction false} PruneMultiplicity(w: seq<Position>, cutoff: int, p: Position)
    ensures multiset(Prune(w, cutoff))[p] == if p.timestamp > cutoff then multiset(w)[p] else 0
  {
    if |w| > 0 {
      PruneMultiplicity(w[1..], cutoff, p);
      assert w == [w[0]] + w[1..];
    }
  }

  /** The survivors keep their relative order. */
  lemma {:induction false} PruneIsSubsequence(w: seq<Position>, cutoff: int)
    ensures SubsequenceOf(Prune(w, cutoff), w)
  {
    if |w| > 0 {
      PruneIsSubsequence(w[1..], cutoff);
      if w[0].timestamp > cutoff {
        assert Prune(w, cutoff) == [w[0]] + Prune(w[1..], cutoff);
        assert Prune(w, cutoff)[1..] == Prune(w[1..], cutoff);
      } else {
        assert Prune(w, cutoff) == Prune(w[1..], cutoff);
      }
    }
  }

  /** Filtering distributes over concatenation. */
  lemma {:induction false} PruneAppend(a: seq<Position>, b: seq<Position>, cutoff: int)
    ensures Prune(a + b, cutoff) == Prune(a, cutoff) + Prune(b, cutoff)
  {
    if |a| == 0 {
      assert a + b == b;
    } else {
      assert (a + b)[0] == a[0];
      assert (a + b)[1..] == a[1..] + b;
      PruneAppend(a[1..], b, cutoff);
    }
  }

  /** A window whose entries are all above the cutoff is left as it is. */
  lemma {:induction false} PruneAllFresh(w: seq<Position>, cutoff: int)
    requires forall i :: 0 <= i < |w| ==> w[i].timestamp > cutoff
    ensures Prune(w, cutoff) == w
  {
    if |w| > 0 {
      PruneAllFresh(w[1..], cutoff);
      assert w == [w[0]] + w[1..];
    }
  }

  /** Pruning by `c1` and then by `c2` is pruning once by the later cutoff. */
  lemma {:induction false} PruneTwice(w: seq<Position>, c1: int, c2: int)
    ensures Prune(Prune(w, c1), c2) == Prune(w, if c1 < c2 then c2 else c1)
  {
    if |w| > 0 {
      PruneTwice(w[1..], c1, c2);
      var head := if w[0].timestamp > c1 then [w[0]] else [];
      PruneAppend(head, Prune(w[1..], c1), c2);
      if w[0].timestamp > c1 {
        assert Prune(head, c2) == (if w[0].timestamp > c2 then [w[0]] else []) + Prune([], c2);
      } else {
        assert Prune(head, c2) == [];
      }
    }
  }

  /** Pruning is idempotent: an already-pruned window is not changed by a
      second filter with the same cutoff. */
  lemma PruneIdempotent(w: seq<Position>, cutoff: int)
    ensures Prune(Prune(w, cutoff), cutoff) == Prune(w, cutoff)
  {
    PruneTwice(w, cutoff, cutoff);
  }

  /** A pushed entry that is above the cutoff survives as the last entry, after
      the survivors of the old window in their order. */
  lemma PrunePushFresh(w: seq<Position>, p: Position, cutoff: int)
    requires p.timestamp > cutoff
    ensures Prune(w + [p], cutoff) == Prune(w, cutoff) + [p]
  {
    PruneAppend(w, [p], cutoff);
    assert Prune([p], cutoff) == [p] + Prune([], cutoff);
  }

  /** A pushed entry at or before the cutoff is dropped at once. */
  lemma PrunePushExpired(w: seq<Position>, p: Position, cutoff: int)
    requires p.timestamp <= cutoff
    ensures Prune(w + [p], cutoff) == Prune(w, cutoff)
  {
    PruneAppend(w, [p], cutoff);
    assert Prune([p], cutoff) == Prune([], cutoff);
  }

  /** Pruning keeps a chronological window chronological. */
  lemma {:induction false} PruneChronological(w: seq<Position>, cutoff: int)
    requires Chronological(w)
    ensures Chronological(Prune(w, cutoff))
  {
    if |w| > 0 {
      assert Chronological(w[1..]);
      PruneChronological(w[1..], cutoff);
      var rest := Prune(w[1..], cutoff);
      if w[0].timestamp > cutoff {
        forall k | 0 <= k < |rest|
          ensures w[0].timestamp <= rest[k].timestamp
        {
          PruneKeepsExactly(w[1..], cutoff, rest[k]);
        }
        assert Prune(w, cutoff) == [w[0]] + rest;
      } else {
        assert Prune(w, cutoff) == rest;
      }
    }
  }

  /** Pushing an entry no earlier than every stored one and then pruning keeps
      a chronological window chronological. */
  lemma PushPruneChronological(w: seq<Position>, p: Position, cutoff: int)
    requires Chronological(w) && NoneLaterThan(w, p.timestamp)
    ensures Chronological(Prune(w + [p], cutoff))
  {
    var pushed := w + [p];
    forall i, j | 0 <= i < j < |pushed|
      ensures pushed[i].timestamp <= pushed[j].timestamp
    {
      if j < |w| {
        assert pushed[i] == w[i] && pushed[j] == w[j];
      } else {
        assert pushed[i] == w[i] && pushed[j] == p;
      }
    }
    PruneChronological(pushed, cutoff);
  }

  // ---------------------------------------------------------------------------
  // Trail projection and the historical conversion

  /** Projection distributes over concatenation. */
  lemma {:induction false} TrailAppend(a: seq<Position>, b: seq<Position>)
    ensures Trail(a + b) == Trail(a) + Trail(b)
  {
    if |a| == 0 {
      assert a + b == b;
    } else {
      assert (a + b)[1..] == a[1..] + b;
      TrailAppend(a[1..], b);
    }
  }

  /** The trail drawn after the bootstrap is the response's own coordinates, in
      response order. */
  lemma TrailOfRecords(data: seq<PastRecord>)
    ensures |Trail(FromRecords(data))| == |data|
    ensures forall i :: 0 <= i < |data| ==>
              Trail(FromRecords(data))[i] == Point(data[i].latitude, data[i].longitude)
  {
  }

  /** A response sorted by its seconds timestamps gives a chronological window. */
  lemma FromRecordsChronological(data: seq<PastRecord>)
    requires forall i, j :: 0 <= i < j < |data| ==> data[i].timestamp <= data[j].timestamp
    ensures Chronological(FromRecords(data))
  {
  }

  /** The example of a live update at `t` over entries 25 h, 24 h, 23 h and 1 h old:
      the 25 h and the exactly-24 h entry are pruned, the others and the new
      fix remain, and the trail has three points. */
  lemma LiveUpdateExample(t: int, a: real, b: real)
    ensures var hour := 60 * 60 * 1000;
            var old25 := Position(a, b, t - 25 * hour);
            var old24 := Position(a, b, t - 24 * hour);
            var old23 := Position(a, b, t - 23 * hour);
            var old1 := Position(a, b, t - hour);
            var fix := Position(a, b, t);
            Prune([old25, old24, old23, old1] + [fix], Cutoff(t)) == [old23, old1, fix]
            && |Trail(Prune([old25, old24, old23, old1] + [fix], Cutoff(t)))| == 3
  {
    var hour := 60 * 60 * 1000;
    var old25 := Position(a, b, t - 25 * hour);
    var old24 := Position(a, b, t - 24 * hour);
    var old23 := Position(a, b, t - 23 * hour);
    var old1 := Position(a, b, t - hour);
    var fix := Position(a, b, t);
    var w := [old25, old24, old23, old1];
    PrunePushFresh(w, fix, Cutoff(t));
    PruneAppend([old25, old24], [old23, old1], Cutoff(t));
    PruneAppend([old25], [old24], Cutoff(t));
    PruneAppend([old23], [old1], Cutoff(t));
    assert w == [old25, old24] + [old23, old1];
    assert Prune([old25], Cutoff(t)) == [] + Prune([], Cutoff(t));
    assert Prune([old24], Cutoff(t)) == [] + Prune([], Cutoff(t));
    assert Prune([old23], Cutoff(t)) == [old23] + Prune([], Cutoff(t));
    assert Prune([old1], Cutoff(t)) == [old1] + Prune([], Cutoff(t));
  }
}
