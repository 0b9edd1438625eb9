/**
 The trip half of `BatchingAdapter` (gps/batching/BatchingAdapter.cpp), proved against `TripProtocol.Step`.

 `data` is the engine's answer to `queryAccumulatedTripDistance`.  A completed trip's fields are read before the
 trip is erased; the source reads them just after.
 */
module TripBatching {
  import opened TripProtocol

  class BatchingAdapter {
    var trips: seq<Trip>                // mTripSessions, in key order
    var ongoingDistance: uint32         // mOngoingTripDistance
    var ongoingInterval: uint32         // mOngoingTripTBFInterval
    var tbfDropped: bool                // mTripWithOngoingTBFDropped
    var distanceDropped: bool           // mTripWithOngoingTripDistanceDropped
    ghost var engine: Engine

    constructor ()
      ensures View() == Initial
    {
      trips, ongoingDistance, ongoingInterval, tbfDropped, distanceDropped := [], 0, 0, false, false;
      engine := Engine(false, 0, 0, 0, 0);
    }

    ghost function View(): World
      reads this
    {
      World(trips, ongoingDistance, ongoingInterval, tbfDropped, distanceDropped, engine)
    }

    // ---------------------------------------------------------------- calls to the engine

    /** `startOutdoorTripBatching` and `reStartOutdoorTripBatching`. */
    method ArmEngine(target: uint32, interval: uint32)
      modifies `engine
      ensures engine == Restarted(old(engine), target, interval)
    {
      engine := Restarted(engine, target, interval);
    }

    /** `stopOutdoorTripBatching`. */
    method StopEngine()
      modifies `engine
      ensures engine == old(engine).(running := false)
    {
      engine := engine.(running := false);
    }

    // ---------------------------------------------------------------- restartTripBatching

    method SmallestRemaining() returns (minRemainingDistance: uint32, minTBFInterval: uint32)
      ensures minRemainingDistance == MinRemaining(trips, |trips|) && minTBFInterval == MinInterval(trips, |trips|)
    {
      minRemainingDistance, minTBFInterval := 0, 0;
      var k := 0;
      while k < |trips|
        invariant 0 <= k <= |trips|
        invariant minRemainingDistance == MinRemaining(trips, k) && minTBFInterval == MinInterval(trips, k)
      {
        var remaining := Sub32(trips[k].distance, trips[k].thisTrip);
        if minRemainingDistance == 0 || minRemainingDistance > remaining {
          minRemainingDistance := remaining;
        }
        if minTBFInterval == 0 || minTBFInterval > trips[k].interval {
          minTBFInterval := trips[k].interval;
        }
        k := k + 1;
      }
    }

    /** The loop run when the engine has been restarted. */
    method CarryOver(accumulatedDistance: uint32)
      modifies `trips
      ensures trips == Carry(old(trips), accumulatedDistance)
    {
      var k := 0;
      while k < |trips|
        invariant 0 <= k <= |trips| == |old(trips)|
        invariant forall i :: 0 <= i < |trips| ==>
                    trips[i] == if i < k then Carry(old(trips), accumulatedDistance)[i] else old(trips)[i]
      {
        var thisTrip := Accumulated(trips[k], accumulatedDistance);
        trips := trips[k := trips[k].(thisTrip := thisTrip, ongoing := 0, onRestart := thisTrip)];
        k := k + 1;
      }
    }

    /** The distance half of the decision whether to restart. */
    method NewTarget(minRemainingDistance: uint32, accumulatedDistance: uint32)
      returns (target: uint32, needsRestart: bool)
      ensures var left := Sub32(ongoingDistance, accumulatedDistance);
              needsRestart == (if !distanceDropped && left != 0 then minRemainingDistance < left
                               else minRemainingDistance != 0) &&
              target == if needsRestart then minRemainingDistance else ongoingDistance
    {
      target, needsRestart := ongoingDistance, false;
      if !distanceDropped && Sub32(target, accumulatedDistance) != 0 {
        if minRemainingDistance < Sub32(target, accumulatedDistance) {
          target := minRemainingDistance;
          needsRestart := true;
        }
      } else if minRemainingDistance != 0 {
        target := minRemainingDistance;
        needsRestart := true;
      }
    }

    method RestartTripBatching(queryAccumulatedDistance: bool, accDist: uint32, data: uint32)
      modifies this
      ensures View() == Rearm(old(View()), if queryAccumulatedDistance then data else accDist)
    {
      if |trips| == 0 {
        StopEngine();
        ongoingDistance, ongoingInterval := 0, 0;
        return;
      }
      var minRemainingDistance, minTBFInterval := SmallestRemaining();
      var accumulatedDistance := accDist;
      if queryAccumulatedDistance {
        accumulatedDistance := data;
      }
      var target, needsRestart := NewTarget(minRemainingDistance, accumulatedDistance);
      var interval := ongoingInterval;
      if minTBFInterval < interval || (minTBFInterval != interval && tbfDropped) {
        interval := minTBFInterval;
        needsRestart := true;
      }
      assert Decide(View(), accumulatedDistance) == if needsRestart then Arm(target, interval) else Keep;
      if needsRestart {
        ArmEngine(target, interval);
        CarryOver(accumulatedDistance);
        ongoingDistance, ongoingInterval := target, interval;
      }
    }

    // ---------------------------------------------------------------- joins and stops

    /** The loop run when a newcomer forces a restart. */
    method ForgetUnreported()
      modifies `trips
      ensures trips == Forget(old(trips))
    {
      var k := 0;
      while k < |trips|
        invariant 0 <= k <= |trips| == |old(trips)|
        invariant forall i :: 0 <= i < |trips| ==>
                    trips[i] == if i < k then Forget(old(trips))[i] else old(trips)[i]
      {
        trips := trips[k := trips[k].(ongoing := 0, onRestart := trips[k].thisTrip)];
        k := k + 1;
      }
    }

    method StartTripBatchingMultiplex(sessionId: nat, minDistance: uint32, minInterval: uint32, data: uint32)
      requires Enabled(View(), Start(sessionId, minDistance, minInterval)) && data == Counter(engine)
      modifies this
      ensures View() == Step(old(View()), Start(sessionId, minDistance, minInterval))
    {
      if |trips| == 0 {
        trips := [Trip(sessionId, 0, 0, 0, minDistance, minInterval)];
        ArmEngine(minDistance, minInterval);
        ongoingDistance, ongoingInterval := minDistance, minInterval;
      } else {
        var target, interval := ongoingDistance, ongoingInterval;
        var needsRestart := false;
        if interval > minInterval {
          interval := minInterval;
          needsRestart := true;
        }
        var remaining := Sub32(target, data);
        if minDistance < remaining {
          target := minDistance;
          needsRestart := true;
        } else if needsRestart {
          target := remaining;
        }
        trips := Insert(trips, Trip(sessionId, data, 0, 0, minDistance, minInterval));
        if needsRestart {
          ongoingDistance, ongoingInterval := target, interval;
          ForgetUnreported();
          ArmEngine(target, interval);
        }
      }
    }

    method StopTripBatchingMultiplex(sessionId: nat, data: uint32)
      requires Enabled(View(), Stop(sessionId)) && data == Counter(engine)
      modifies this
      ensures View() == Step(old(View()), Stop(sessionId))
    {
      if |trips| == 1 {
        StopEngine();
      }
      var tripSess := Find(trips, sessionId);
      if tripSess.interval == ongoingInterval {
        tbfDropped := true;
      }
      if tripSess.distance == ongoingDistance {
        distanceDropped := true;
      }
      trips := Erase(trips, sessionId);
      if |trips| == 0 {
        ongoingDistance, ongoingInterval := 0, 0;
      } else {
        RestartTripBatching(true, 0, data);
      }
    }

    // ---------------------------------------------------------------- reports

    /** One round of the loop of `reportCompletedTripsEvent` at position `i` of the map. */
    method VisitTrip(i: nat, acc: uint32, completedTripsList: seq<nat>) returns (next: nat, completed: seq<nat>)
      requires i < |trips|
      modifies `trips, `tbfDropped, `distanceDropped
      ensures Scan(trips, next, completed, tbfDropped, distanceDropped) ==
              ScanOne(Scan(old(trips), i, completedTripsList, old(tbfDropped), old(distanceDropped)),
                      acc, ongoingDistance, ongoingInterval)
    {
      next, completed := i, completedTripsList;
      var tripSession := trips[i].(thisTrip := Accumulated(trips[i], acc));
      trips := trips[i := tripSession];
      if tripSession.distance <= tripSession.thisTrip {
        completed := completed + [tripSession.id];
        trips := trips[..i] + trips[i + 1..];
        if tripSession.interval == ongoingInterval {
          tbfDropped := true;
        }
        if tripSession.distance == ongoingDistance {
          distanceDropped := true;
        }
      } else {
        next := i + 1;
      }
    }

    /** The loop of `reportCompletedTripsEvent`. */
    method MeasureAndErase(acc: uint32) returns (completed: seq<nat>)
      modifies `trips, `tbfDropped, `distanceDropped
      ensures View() == Reported(old(View()), acc)
      ensures completed == Completed(Measure(old(trips), acc), |old(trips)|)
    {
      completed := [];
      ghost var k, s := 0, Scan(trips, 0, [], tbfDropped, distanceDropped);
      var i := 0;
      while i < |trips|
        invariant k <= |old(trips)| && 0 <= i && s == Scan(trips, i, completed, tbfDropped, distanceDropped)
        invariant s == ScanFrom(old(View()), acc, k)
        decreases |old(trips)| - k
      {
        s := ScanOne(s, acc, ongoingDistance, ongoingInterval);
        i, completed := VisitTrip(i, acc, completed);
        k := k + 1;
      }
      ScanEnds(Scan(trips, i, completed, tbfDropped, distanceDropped), old(View()), acc, k);
    }

    method ReportCompletedTrips(accumulatedDistance: uint32) returns (completed: seq<nat>)
      requires Enabled(View(), Report) && accumulatedDistance == Counter(engine)
      modifies this
      ensures View() == Step(old(View()), Report)
      ensures completed == Completed(Measure(old(trips), accumulatedDistance), |old(trips)|)
    {
      completed := MeasureAndErase(accumulatedDistance);
      if |completed| > 0 {
        RestartTripBatching(false, accumulatedDistance, 0);
      }
    }
  }

  // ---------------------------------------------------------------- the erasing scan

  datatype Scan = Scan(now: seq<Trip>, i: nat, completed: seq<nat>, tbfDropped: bool, distanceDropped: bool)

  ghost function ScanOne(s: Scan, acc: uint32, distance: uint32, interval: uint32): Scan
    requires s.i < |s.now|
  {
    var t := s.now[s.i].(thisTrip := Accumulated(s.now[s.i], acc));
    if Complete(t) then
      Scan(s.now[..s.i] + s.now[s.i + 1..], s.i, s.completed + [t.id],
           s.tbfDropped || t.interval == interval, s.distanceDropped || t.distance == distance)
    else Scan(s.now[s.i := t], s.i + 1, s.completed, s.tbfDropped, s.distanceDropped)
  }

  ghost function ScanFrom(w: World, acc: uint32, k: nat): (s: Scan)
    requires k <= |w.trips|
    ensures s.i <= |s.now| && |s.now| - s.i == |w.trips| - k
  {
    if k == 0 then Scan(w.trips, 0, [], w.tbfDropped, w.distanceDropped)
    else ScanOne(ScanFrom(w, acc, k - 1), acc, w.ongoingDistance, w.ongoingInterval)
  }

  ghost predicate HasScanned(s: Scan, w: World, acc: uint32, k: nat) {
    var measured := Measure(w.trips, acc);
    k <= |w.trips| && s.i <= |s.now| && s.now[s.i..] == w.trips[k..] && s.now[..s.i] == Survivors(measured, k) &&
    s.completed == Completed(measured, k) &&
    s.tbfDropped == (w.tbfDropped || IntervalCompleted(measured, k, w.ongoingInterval)) &&
    s.distanceDropped == (w.distanceDropped || DistanceCompleted(measured, k, w.ongoingDistance))
  }

  lemma ScanNext(s: Scan, w: World, acc: uint32, k: nat)
    requires HasScanned(s, w, acc, k) && k < |w.trips|
    ensures s.i < |s.now|
    ensures HasScanned(ScanOne(s, acc, w.ongoingDistance, w.ongoingInterval), w, acc, k + 1)
  {
    var now, i, measured := s.now, s.i, Measure(w.trips, acc);
    var t := measured[k];
    if Complete(t) {
      CutOut(now, i);
    } else {
      PutIn(now, i, t);
    }
  }

  lemma CutOut(now: seq<Trip>, i: nat)
    requires i < |now|
    ensures var shorter := now[..i] + now[i + 1..]; shorter[..i] == now[..i] && shorter[i..] == now[i + 1..]
  {}

  lemma PutIn(now: seq<Trip>, i: nat, t: Trip)
    requires i < |now|
    ensures now[i := t][..i + 1] == now[..i] + [t] && now[i := t][i + 1..] == now[i + 1..]
  {}

  lemma {:induction false} ScanMeaning(w: World, acc: uint32, k: nat) returns (s: Scan)
    requires k <= |w.trips|
    ensures s == ScanFrom(w, acc, k) && HasScanned(s, w, acc, k)
  {
    s := Scan(w.trips, 0, [], w.tbfDropped, w.distanceDropped);
    if k > 0 {
      s := ScanMeaning(w, acc, k - 1);
      ScanNext(s, w, acc, k - 1);
      s := ScanOne(s, acc, w.ongoingDistance, w.ongoingInterval);
    }
  }

  /** A traversal that has come to the end of the map has measured every trip. */
  lemma ScanEnds(s: Scan, w: World, acc: uint32, k: nat)
    requires k <= |w.trips| && s == ScanFrom(w, acc, k) && s.i >= |s.now|
    ensures var r := Reported(w, acc);
            s.now == r.trips && s.tbfDropped == r.tbfDropped && s.distanceDropped == r.distanceDropped &&
            s.completed == Completed(Measure(w.trips, acc), |w.trips|)
  {
    var meaning := ScanMeaning(w, acc, k);
    assert k == |w.trips| && s.now[..s.i] == s.now;
  }
}
