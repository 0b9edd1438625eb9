/**
 The tracking half of `GnssAdapter` (gps/gnss/GnssAdapter.cpp), proved against `TrackingProtocol.Step`.

 A `Reply` stands for `reportResponse`.  The engine's own answer is taken within the call that asks for it.
 */
module Tracking {
  import opened TrackingProtocol
  import opened Wrappers

  class GnssAdapter {
    const supported: bool               // ContextBase::isMessageSupported for distance-based tracking
    var timeBased: seq<Session>         // mTimeBasedTrackingSessions, in key order
    var distanceBased: seq<Session>     // mDistanceBasedTrackingSessions, in key order
    ghost var engine: Engine
    ghost var answers: seq<Answer>

    constructor (supported: bool)
      ensures View() == Initial && this.supported == supported
    {
      this.supported := supported;
      timeBased, distanceBased := [], [];
      engine, answers := Engine(false, NO_OPTIONS, map[]), [];
    }

    ghost function View(): World
      reads this
    {
      World(timeBased, distanceBased, engine, answers)
    }

    method ReportResponse(key: Key, error: Error)
      modifies `answers
      ensures View() == Replied(old(View()), key, error)
    {
      answers := answers + [Answer(key, error)];
    }

    method SaveTrackingSession(key: Key, options: Options)
      modifies `timeBased, `distanceBased
      ensures View() == Save(supported, old(View()), key, options)
    {
      if options.distance > 0 && supported {
        distanceBased := Put(distanceBased, Session(key, options));
      } else {
        timeBased := Put(timeBased, Session(key, options));
      }
    }

    method EraseTrackingSession(key: Key)
      modifies `timeBased, `distanceBased
      ensures View() == EraseSession(old(View()), key)
    {
      if Live(timeBased, key) {
        timeBased := Remove(timeBased, key);
      } else {
        distanceBased := Remove(distanceBased, key);
      }
    }

    // ---------------------------------------------------------------- calls to the engine

    /** `startTimeBasedTracking` and `updateTracking`: the engine's answer is passed on. */
    method ArmEngine(key: Key, options: Options)
      modifies `engine, `answers
      ensures View() == Replied(Commanded(old(View()), Arm(options)), key, Success)
    {
      engine := engine.(running := true, options := options);
      ReportResponse(key, Success);
    }

    /** `stopTracking`. */
    method StopTracking(key: Key)
      modifies `engine, `answers
      ensures View() == Replied(Commanded(old(View()), Halt), key, Success)
    {
      engine := engine.(running := false);
      ReportResponse(key, Success);
    }

    method StartDistanceBasedTracking(id: nat, options: Options)
      modifies `engine
      ensures View() == DistanceStarted(old(View()), id, options)
    {
      engine := engine.(distance := engine.distance[id := options]);
    }

    method StopDistanceBasedTracking(id: nat)
      modifies `engine
      ensures View() == DistanceStopped(old(View()), id)
    {
      engine := engine.(distance := engine.distance - {id});
    }

    // ---------------------------------------------------------------- the multiplexer

    /** The scan for the smallest interval and power mode, over all sessions but one. */
    method ScanSessions(skip: Option<Key>) returns (options: Options, power: PowerMode)
      ensures options == Smallest(timeBased, |timeBased|, skip) && power == Power(timeBased, |timeBased|, skip)
    {
      options, power := NO_OPTIONS, POWER_MODE_INVALID;
      var k := 0;
      while k < |timeBased|
        invariant 0 <= k <= |timeBased|
        invariant options == Smallest(timeBased, k, skip) && power == Power(timeBased, k, skip)
      {
        var it := timeBased[k];
        if Some(it.key) != skip && (options.size == 0 || it.options.interval < options.interval) {
          options := it.options;
        }
        if Some(it.key) != skip && (power == POWER_MODE_INVALID || it.options.power < power) {
          power := it.options.power;
        }
        k := k + 1;
      }
    }

    /** Answers whether the client is to be told at once; otherwise the engine's answer has been passed on. */
    method StartTimeBasedTrackingMultiplex(key: Key, options: Options) returns (reportNoWait: bool)
      modifies `engine, `answers
      ensures View() == (var w := Commanded(old(View()), Join(timeBased, options));
                         if reportNoWait then w else Replied(w, key, Success))
    {
      reportNoWait := true;
      if |timeBased| == 0 {
        ArmEngine(key, options);
        reportNoWait := false;
      } else {
        var multiplexed, power := ScanSessions(None);
        var updateOptions := false;
        if options.interval < multiplexed.interval {
          multiplexed := multiplexed.(interval := options.interval);
          updateOptions := true;
        }
        if options.power < power {
          multiplexed := multiplexed.(power := options.power);
          updateOptions := true;
        }
        if updateOptions {
          ArmEngine(key, multiplexed);
          reportNoWait := false;
        }
      }
    }

    method UpdateTrackingMultiplex(key: Key, options: Options) returns (reportNoWait: bool)
      requires Live(timeBased, key)
      modifies `engine, `answers
      ensures View() == (var w := Commanded(old(View()), Amend(timeBased, key, options));
                         if reportNoWait then w else Replied(w, key, Success))
    {
      reportNoWait := true;
      var was := Find(timeBased, key).options;
      if was.interval != options.interval || was.power != options.power {
        var multiplexed, power := ScanSessions(Some(key));
        var updateOptions := false;
        if options.interval < multiplexed.interval {
          multiplexed := multiplexed.(interval := options.interval);
          updateOptions := true;
        }
        if options.power < power {
          multiplexed := multiplexed.(power := options.power);
          updateOptions := true;
        }
        if |timeBased| == 1 {
          multiplexed := options;
          updateOptions := true;
        }
        if updateOptions {
          ArmEngine(key, multiplexed);
          reportNoWait := false;
        }
      }
    }

    method StopTimeBasedTrackingMultiplex(key: Key) returns (reportNoWait: bool)
      requires Live(timeBased, key)
      modifies `engine, `answers
      ensures View() == (var w := Commanded(old(View()), Leave(timeBased, key));
                         if reportNoWait then w else Replied(w, key, Success))
    {
      reportNoWait := true;
      if |timeBased| == 1 {
        StopTracking(key);
        reportNoWait := false;
      } else {
        var was := Find(timeBased, key).options;
        var multiplexed, power := ScanSessions(Some(key));
        if was.interval < multiplexed.interval || was.power < power {
          multiplexed := multiplexed.(power := power);
          ArmEngine(key, multiplexed);
          reportNoWait := false;
        }
      }
    }

    // ---------------------------------------------------------------- the commands

    method StartTrackingCommand(key: Key, options: Options, hasCallback: bool)
      modifies this
      ensures View() == OnStart(supported, old(View()), key, options, hasCallback)
    {
      if !hasCallback || options.size == 0 {
        return;
      }
      var o := options;
      if o.interval < MIN_TRACKING_INTERVAL {
        o := o.(interval := MIN_TRACKING_INTERVAL);
      }
      if o.distance > 0 && supported {
        SaveTrackingSession(key, o);
        StartDistanceBasedTracking(key.id, o);
        ReportResponse(key, Success);
      } else {
        if o.power == POWER_MODE_M4 && o.tbm > TRACKING_TBM_THRESHOLD_MILLIS {
          o := o.(power := POWER_MODE_M2);
        }
        var reportNoWait := StartTimeBasedTrackingMultiplex(key, o);
        SaveTrackingSession(key, o);
        if reportNoWait {
          ReportResponse(key, Success);
        }
      }
    }

    method SwitchToDistanceBased(key: Key, o: Options)
      requires Live(timeBased, key)
      modifies this
      ensures var left := EraseSession(Commanded(old(View()), Leave(old(timeBased), key)), key);
              View() == Replied(DistanceStarted(Save(supported, left, key, o), key.id, o), key, Success)
    {
      var reportNoWait := StopTimeBasedTrackingMultiplex(key);
      EraseTrackingSession(key);
      if reportNoWait {
        ReportResponse(key, Success);
      }
      SaveTrackingSession(key, o);
      StartDistanceBasedTracking(key.id, o);
    }

    method SwitchToTimeBased(key: Key, o: Options)
      modifies this
      ensures var left := DistanceStopped(EraseSession(old(View()), key), key.id);
              View() == Replied(Save(supported, Commanded(left, Join(left.timeBased, o)), key, o), key, Success)
    {
      EraseTrackingSession(key);
      StopDistanceBasedTracking(key.id);
      var reportNoWait := StartTimeBasedTrackingMultiplex(key, o);
      SaveTrackingSession(key, o);
      if reportNoWait {
        ReportResponse(key, Success);
      }
    }

    method UpdateTrackingOptionsCommand(key: Key, options: Options)
      modifies this
      ensures View() == OnUpdate(supported, old(View()), key, options)
    {
      var isTimeBased, isDistanceBased := Live(timeBased, key), Live(distanceBased, key);
      if !isTimeBased && !isDistanceBased {
        ReportResponse(key, IdUnknown);
        return;
      }
      if options.size == 0 {
        ReportResponse(key, InvalidParameter);
        return;
      }
      var o := options;
      if o.power == POWER_MODE_M4 && o.tbm > TRACKING_TBM_THRESHOLD_MILLIS {
        o := o.(power := POWER_MODE_M2);
      }
      if o.interval < MIN_TRACKING_INTERVAL {
        o := o.(interval := MIN_TRACKING_INTERVAL);
      }
      if isTimeBased && o.distance > 0 {
        SwitchToDistanceBased(key, o);
      } else if isDistanceBased && o.distance == 0 {
        SwitchToTimeBased(key, o);
      } else if isTimeBased {
        var reportNoWait := UpdateTrackingMultiplex(key, o);
        SaveTrackingSession(key, o);
        if reportNoWait {
          ReportResponse(key, Success);
        }
      } else {
        StopDistanceBasedTracking(key.id);
        StartDistanceBasedTracking(key.id, o);
        SaveTrackingSession(key, o);
        ReportResponse(key, Success);
      }
    }

    method StopTrackingCommand(key: Key)
      modifies this
      ensures View() == OnStop(old(View()), key)
    {
      if Live(timeBased, key) {
        var reportNoWait := StopTimeBasedTrackingMultiplex(key);
        EraseTrackingSession(key);
        if reportNoWait {
          ReportResponse(key, Success);
        }
      } else if Live(distanceBased, key) {
        StopDistanceBasedTracking(key.id);
        EraseTrackingSession(key);
        ReportResponse(key, Success);
      } else {
        ReportResponse(key, IdUnknown);
      }
    }

    // ---------------------------------------------------------------- after an engine reset

    method RestartSessions()
      requires engine == Engine(false, NO_OPTIONS, map[])
      modifies `engine
      ensures View() == OnEngineUp(old(View()))
    {
      if |timeBased| > 0 {
        var smallest, highest := NO_OPTIONS, NO_OPTIONS;
        var k := 0;
        while k < |timeBased|
          invariant 0 <= k <= |timeBased|
          invariant smallest == Smallest(timeBased, k, None) && highest == Highest(timeBased, k)
        {
          var o := timeBased[k].options;
          if smallest.size == 0 || o.interval < smallest.interval {
            smallest := o;
          }
          if highest.size == 0 || (o.power != POWER_MODE_INVALID && o.power < highest.power) {
            highest := o;
          }
          k := k + 1;
        }
        engine := engine.(running := true, options := smallest.(power := highest.power, tbm := highest.tbm));
      }
      var k := 0;
      while k < |distanceBased|
        invariant 0 <= k <= |distanceBased|
        invariant engine == OnEngineUp(old(View())).engine.(distance := Restarted(distanceBased, k))
      {
        StartDistanceBasedTracking(distanceBased[k].key.id, distanceBased[k].options);
        k := k + 1;
      }
    }
  }
}
