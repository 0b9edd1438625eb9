/**
 Trip batching (gps/batching/BatchingAdapter.cpp): many trips share one distance counter of the engine.

 The engine counts distance from its last start or restart.  A trip remembers where the counter stood when it
 joined and what it had covered at the last restart.  The books are the ghost side: the odometer when a trip
 joined, and how much of its distance restarts by newcomers have thrown away.  Engine calls succeed and are answered
 before the next event; all distances stay below 2^31.
 */
module TripProtocol {
  const MODULUS := 0x1_0000_0000
  const HALF := 0x8000_0000

  type uint32 = x: int | 0 <= x < MODULUS

  // unsigned 32-bit addition and subtraction wrap around
  function Add32(a: uint32, b: uint32): uint32 {
    if a + b < MODULUS then a + b else a + b - MODULUS
  }

  function Sub32(a: uint32, b: uint32): uint32 {
    if a >= b then a - b else a - b + MODULUS
  }

  /** `TripSessionStatus` with its session id. */
  datatype Trip = Trip(
    id: nat, ongoing: uint32, thisTrip: uint32, onRestart: uint32, distance: uint32, interval: uint32)

  datatype Engine = Engine(running: bool, target: uint32, interval: uint32, odo: nat, base: nat)

  /** The adapter's trip map in key order, its other fields, and the engine. */
  datatype World = World(
    trips: seq<Trip>, ongoingDistance: uint32, ongoingInterval: uint32,
    tbfDropped: bool, distanceDropped: bool, engine: Engine)

  datatype Event =
    | Travel(distance: nat)
    | Start(id: nat, minDistance: uint32, minInterval: uint32)
    | Stop(id: nat)
    | Report

  function Counter(e: Engine): uint32
    requires e.base <= e.odo < HALF
  {
    e.odo - e.base
  }

  function Restarted(e: Engine, target: uint32, interval: uint32): Engine {
    Engine(true, target, interval, e.odo, e.odo)
  }

  // ---------------------------------------------------------------- pieces of the code

  /** `mTripSessions[t.id] = t` on a map kept in key order. */
  function Insert(trips: seq<Trip>, t: Trip): seq<Trip> {
    if trips == [] then [t]
    else if t.id < trips[0].id then [t] + trips
    else if t.id == trips[0].id then [t] + trips[1..]
    else [trips[0]] + Insert(trips[1..], t)
  }

  predicate HasTrip(trips: seq<Trip>, id: nat) {
    exists i :: 0 <= i < |trips| && trips[i].id == id
  }

  function Find(trips: seq<Trip>, id: nat): (t: Trip)
    requires HasTrip(trips, id)
    ensures t in trips && t.id == id
  {
    if trips[0].id == id then trips[0] else Find(trips[1..], id)
  }

  function Erase(trips: seq<Trip>, id: nat): seq<Trip> {
    if trips == [] then [] else if trips[0].id == id then Erase(trips[1..], id) else [trips[0]] + Erase(trips[1..], id)
  }

  function Accumulated(t: Trip, acc: uint32): uint32 {
    Add32(t.onRestart, Sub32(acc, t.ongoing))
  }

  function Measure(trips: seq<Trip>, acc: uint32): (r: seq<Trip>)
    ensures |r| == |trips|
    ensures forall i :: 0 <= i < |r| ==> r[i] == trips[i].(thisTrip := Accumulated(trips[i], acc))
  {
    seq(|trips|, i requires 0 <= i < |trips| => trips[i].(thisTrip := Accumulated(trips[i], acc)))
  }

  /** After a restart by `restartTripBatching`: the distance up to now is kept. */
  function Carry(trips: seq<Trip>, acc: uint32): (r: seq<Trip>)
    ensures |r| == |trips|
    ensures forall i :: 0 <= i < |r| ==>
              r[i] == trips[i].(thisTrip := Accumulated(trips[i], acc), ongoing := 0,
                                onRestart := Accumulated(trips[i], acc))
  {
    seq(|trips|, i requires 0 <= i < |trips| =>
        trips[i].(thisTrip := Accumulated(trips[i], acc), ongoing := 0, onRestart := Accumulated(trips[i], acc)))
  }

  /** After a restart forced by a newcomer: only the distance of the last report is kept. */
  function Forget(trips: seq<Trip>): (r: seq<Trip>)
    ensures |r| == |trips|
    ensures forall i :: 0 <= i < |r| ==> r[i] == trips[i].(ongoing := 0, onRestart := trips[i].thisTrip)
  {
    seq(|trips|, i requires 0 <= i < |trips| => trips[i].(ongoing := 0, onRestart := trips[i].thisTrip))
  }

  predicate Complete(t: Trip) {
    t.distance <= t.thisTrip
  }

  function Survivors(trips: seq<Trip>, k: nat): (r: seq<Trip>)
    requires k <= |trips|
    ensures forall t :: t in r ==> t in trips && !Complete(t)
    ensures forall i :: 0 <= i < k && !Complete(trips[i]) ==> trips[i] in r
    ensures |r| <= k
  {
    if k == 0 then [] else Survivors(trips, k - 1) + if Complete(trips[k - 1]) then [] else [trips[k - 1]]
  }

  function Completed(trips: seq<Trip>, k: nat): (r: seq<nat>)
    requires k <= |trips|
    ensures |r| + |Survivors(trips, k)| == k
  {
    if k == 0 then [] else Completed(trips, k - 1) + if Complete(trips[k - 1]) then [trips[k - 1].id] else []
  }

  /** Whether a trip completed that had the engine's interval, or its distance. */
  predicate IntervalCompleted(trips: seq<Trip>, k: nat, interval: uint32)
    requires k <= |trips|
  {
    exists i :: 0 <= i < k && Complete(trips[i]) && trips[i].interval == interval
  }

  predicate DistanceCompleted(trips: seq<Trip>, k: nat, distance: uint32)
    requires k <= |trips|
  {
    exists i :: 0 <= i < k && Complete(trips[i]) && trips[i].distance == distance
  }

  /** The scan for the smallest remaining distance, zero standing for "none yet". */
  function MinRemaining(trips: seq<Trip>, k: nat): uint32
    requires k <= |trips|
  {
    if k == 0 then 0
    else
      var m, x := MinRemaining(trips, k - 1), Sub32(trips[k - 1].distance, trips[k - 1].thisTrip);
      if m == 0 || m > x then x else m
  }

  function MinInterval(trips: seq<Trip>, k: nat): uint32
    requires k <= |trips|
  {
    if k == 0 then 0
    else
      var m := MinInterval(trips, k - 1);
      if m == 0 || m > trips[k - 1].interval then trips[k - 1].interval else m
  }

  // ---------------------------------------------------------------- one event

  /** What the engine is to be told, if anything. */
  datatype Command = Keep | Arm(target: uint32, interval: uint32)

  /** The decision of `restartTripBatching` for a non-empty list. */
  function Decide(w: World, acc: uint32): Command {
    var minDistance, minInterval := MinRemaining(w.trips, |w.trips|), MinInterval(w.trips, |w.trips|);
    var left := Sub32(w.ongoingDistance, acc);
    var byDistance := if !w.distanceDropped && left != 0 then minDistance < left else minDistance != 0;
    var byInterval := minInterval < w.ongoingInterval || (minInterval != w.ongoingInterval && w.tbfDropped);
    if byDistance || byInterval then
      Arm(if byDistance then minDistance else w.ongoingDistance, if byInterval then minInterval else w.ongoingInterval)
    else Keep
  }

  function Rearm(w: World, acc: uint32): World {
    if w.trips == [] then
      w.(ongoingDistance := 0, ongoingInterval := 0, engine := w.engine.(running := false))
    else
      match Decide(w, acc)
      case Keep => w
      case Arm(target, interval) =>
        w.(trips := Carry(w.trips, acc), ongoingDistance := target, ongoingInterval := interval,
           engine := Restarted(w.engine, target, interval))
  }

  /** The decision of `startTripBatchingMultiplex` for a newcomer among others. */
  function Admit(w: World, minDistance: uint32, minInterval: uint32, acc: uint32): Command {
    var remaining := Sub32(w.ongoingDistance, acc);
    var byInterval := w.ongoingInterval > minInterval;
    var interval := if byInterval then minInterval else w.ongoingInterval;
    if minDistance < remaining then Arm(minDistance, interval)
    else if byInterval then Arm(remaining, interval)
    else Keep
  }

  function OnStart(w: World, id: nat, minDistance: uint32, minInterval: uint32, acc: uint32): World {
    if w.trips == [] then
      w.(trips := [Trip(id, 0, 0, 0, minDistance, minInterval)], ongoingDistance := minDistance,
         ongoingInterval := minInterval, engine := Restarted(w.engine, minDistance, minInterval))
    else
      var trips := Insert(w.trips, Trip(id, acc, 0, 0, minDistance, minInterval));
      match Admit(w, minDistance, minInterval, acc)
      case Keep => w.(trips := trips)
      case Arm(target, interval) =>
        w.(trips := Forget(trips), ongoingDistance := target, ongoingInterval := interval,
           engine := Restarted(w.engine, target, interval))
  }

  function OnStop(w: World, id: nat, acc: uint32): World
    requires HasTrip(w.trips, id)
  {
    var t := Find(w.trips, id);
    var engine := if |w.trips| == 1 then w.engine.(running := false) else w.engine;
    var w1 := w.(trips := Erase(w.trips, id), engine := engine,
                 tbfDropped := w.tbfDropped || t.interval == w.ongoingInterval,
                 distanceDropped := w.distanceDropped || t.distance == w.ongoingDistance);
    if w1.trips == [] then w1.(ongoingDistance := 0, ongoingInterval := 0) else Rearm(w1, acc)
  }

  function Reported(w: World, acc: uint32): World {
    var measured := Measure(w.trips, acc);
    var n := |measured|;
    w.(trips := Survivors(measured, n),
       tbfDropped := w.tbfDropped || IntervalCompleted(measured, n, w.ongoingInterval),
       distanceDropped := w.distanceDropped || DistanceCompleted(measured, n, w.ongoingDistance))
  }

  function OnReport(w: World, acc: uint32): World {
    if |Survivors(Measure(w.trips, acc), |w.trips|)| < |w.trips| then Rearm(Reported(w, acc), acc)
    else Reported(w, acc)
  }

  predicate Sane(w: World) {
    w.engine.base <= w.engine.odo < HALF
  }

  /** Session ids are new when a trip starts; the odometer stays in range; only a running engine reports. */
  predicate Enabled(w: World, e: Event) {
    Sane(w) &&
    match e
    case Travel(d) => w.engine.odo + d < HALF
    case Start(id, minDistance, _) => !HasTrip(w.trips, id) && minDistance < HALF
    case Stop(id) => HasTrip(w.trips, id)
    case Report => w.engine.running
  }

  /** An event that cannot happen leaves everything as it is. */
  function Step(w: World, e: Event): World {
    if !Enabled(w, e) then w
    else
      match e
      case Travel(d) => w.(engine := w.engine.(odo := w.engine.odo + d))
      case Start(id, minDistance, minInterval) => OnStart(w, id, minDistance, minInterval, Counter(w.engine))
      case Stop(id) => OnStop(w, id, Counter(w.engine))
      case Report => OnReport(w, Counter(w.engine))
  }

  const Initial := World([], 0, 0, false, false, Engine(false, 0, 0, 0, 0))

  // ---------------------------------------------------------------- the books

  /** The odometer when the trip joined, and the distance taken from it since. */
  datatype Book = Book(joined: nat, lost: nat)

  /** What the trip has to its credit, reported or not. */
  function Covered(e: Engine, t: Trip): int {
    t.onRestart + (e.odo - e.base - t.ongoing)
  }

  /** A newcomer's restart drops what was covered since the last report. */
  function Charge(w: World, books: map<nat, Book>): map<nat, Book> {
    map id | id in books ::
      if HasTrip(w.trips, id) then
        var t := Find(w.trips, id);
        var unreported := Covered(w.engine, t) - t.thisTrip;
        books[id].(lost := books[id].lost + if unreported > 0 then unreported else 0)
      else books[id]
  }

  /** A newcomer that asks for a shorter interval than is in force, or a shorter distance than is left of the target. */
  predicate ForcesRestart(w: World, e: Event) {
    e.Start? && Enabled(w, e) && w.trips != [] &&
    (e.minInterval < w.ongoingInterval || e.minDistance < Sub32(w.ongoingDistance, Counter(w.engine)))
  }

  function StepBooks(w: World, books: map<nat, Book>, e: Event): map<nat, Book> {
    if !e.Start? || !Enabled(w, e) then books
    else (if ForcesRestart(w, e) then Charge(w, books) else books)[e.id := Book(w.engine.odo, 0)]
  }

  function Run(es: seq<Event>): (World, map<nat, Book>) {
    if es == [] then (Initial, map[])
    else
      var (w, books) := Run(es[..|es| - 1]);
      (Step(w, es[|es| - 1]), StepBooks(w, books, es[|es| - 1]))
  }

  // ---------------------------------------------------------------- the account of a trip

  /** The counter stands past the trip's joining mark; nothing recorded exceeds what is covered; and what is covered
      and what was lost add up to the distance travelled since joining. */
  ghost predicate Sound(e: Engine, books: map<nat, Book>, t: Trip) {
    t.id in books && t.distance < HALF && t.ongoing <= e.odo - e.base && t.thisTrip <= Covered(e, t) &&
    Covered(e, t) + books[t.id].lost == e.odo - books[t.id].joined
  }

  ghost predicate DistinctIds(trips: seq<Trip>) {
    forall i, j :: 0 <= i < j < |trips| ==> trips[i].id != trips[j].id
  }

  ghost predicate Inv(w: World, books: map<nat, Book>) {
    Sane(w) && DistinctIds(w.trips) && (w.engine.running <==> w.trips != []) &&
    (w.engine.running ==> w.engine.target == w.ongoingDistance && w.engine.interval == w.ongoingInterval) &&
    forall t :: t in w.trips ==> Sound(w.engine, books, t)
  }

  lemma {:induction false} InsertKeeps(trips: seq<Trip>, t: Trip)
    requires DistinctIds(trips) && !HasTrip(trips, t.id)
    ensures forall u :: u in Insert(trips, t) <==> u in trips || u == t
    ensures DistinctIds(Insert(trips, t)) && Insert(trips, t) != []
  {
    if trips != [] && t.id >= trips[0].id {
      assert forall i :: 0 <= i < |trips| - 1 ==> trips[1..][i] == trips[i + 1];
      InsertKeeps(trips[1..], t);
      var rest := Insert(trips[1..], t);
      forall j | 0 <= j < |rest|
        ensures rest[j].id != trips[0].id
      {
        assert rest[j] in rest;
      }
    }
  }

  lemma {:induction false} EraseKeeps(trips: seq<Trip>, id: nat)
    requires DistinctIds(trips)
    ensures forall u :: u in Erase(trips, id) <==> u in trips && u.id != id
    ensures DistinctIds(Erase(trips, id))
    ensures |Erase(trips, id)| == if HasTrip(trips, id) then |trips| - 1 else |trips|
  {
    if trips != [] {
      EraseKeeps(trips[1..], id);
      HasTripTail(trips, id);
    }
  }

  lemma HasTripTail(trips: seq<Trip>, id: nat)
    requires trips != []
    ensures HasTrip(trips, id) <==> trips[0].id == id || HasTrip(trips[1..], id)
    ensures HasTrip(trips, id) <==> exists t :: t in trips && t.id == id
  {
    if t :| t in trips && t.id == id {
      var i :| 0 <= i < |trips| && trips[i] == t;
    }
    if i :| 0 <= i < |trips| && trips[i].id == id {
      assert trips[i] in trips;
      assert i > 0 ==> trips[1..][i - 1].id == id;
    }
  }

  lemma {:induction false} SurvivorsDistinct(trips: seq<Trip>, k: nat)
    requires DistinctIds(trips) && k <= |trips|
    ensures DistinctIds(Survivors(trips, k))
    ensures forall t :: t in Survivors(trips, k) ==> exists i :: 0 <= i < k && trips[i] == t
  {
    if k > 0 {
      SurvivorsDistinct(trips, k - 1);
      var kept := Survivors(trips, k - 1);
      forall j | 0 <= j < |kept|
        ensures kept[j].id != trips[k - 1].id
      {
        assert kept[j] in kept;
      }
    }
  }

  // ---------------------------------------------------------------- every event keeps the accounts

  lemma MeasureKeeps(w: World, books: map<nat, Book>)
    requires Inv(w, books)
    ensures DistinctIds(Measure(w.trips, Counter(w.engine)))
    ensures forall t :: t in Measure(w.trips, Counter(w.engine)) ==>
              Sound(w.engine, books, t) && t.thisTrip == Covered(w.engine, t)
  {
    var r := Measure(w.trips, Counter(w.engine));
    forall t | t in r
      ensures Sound(w.engine, books, t) && t.thisTrip == Covered(w.engine, t)
    {
      var i :| 0 <= i < |r| && r[i] == t;
      assert w.trips[i] in w.trips;
    }
  }

  /** Carrying the distance over a restart of the counter leaves every account as it is. */
  lemma CarryKeeps(w: World, books: map<nat, Book>)
    requires Sane(w) && DistinctIds(w.trips) && forall t :: t in w.trips ==> Sound(w.engine, books, t)
    ensures DistinctIds(Carry(w.trips, Counter(w.engine)))
    ensures forall t, e: Engine :: t in Carry(w.trips, Counter(w.engine)) && e.odo == e.base == w.engine.odo ==>
              Sound(e, books, t) && t.thisTrip == Covered(e, t)
  {
    var r := Carry(w.trips, Counter(w.engine));
    forall t, e: Engine | t in r && e.odo == e.base == w.engine.odo
      ensures Sound(e, books, t) && t.thisTrip == Covered(e, t)
    {
      var i :| 0 <= i < |r| && r[i] == t;
      assert w.trips[i] in w.trips;
    }
  }

  lemma RearmKeeps(w: World, books: map<nat, Book>)
    requires Sane(w) && DistinctIds(w.trips) && forall t :: t in w.trips ==> Sound(w.engine, books, t)
    requires w.trips != [] ==>
               w.engine.running && w.engine.target == w.ongoingDistance && w.engine.interval == w.ongoingInterval
    ensures Inv(Rearm(w, Counter(w.engine)), books)
  {
    CarryKeeps(w, books);
  }

  lemma ReportKeeps(w: World, books: map<nat, Book>)
    requires Inv(w, books)
    ensures Inv(OnReport(w, Counter(w.engine)), books)
  {
    MeasureKeeps(w, books);
    var measured := Measure(w.trips, Counter(w.engine));
    SurvivorsDistinct(measured, |measured|);
    var r := Reported(w, Counter(w.engine));
    assert forall t :: t in r.trips ==> t in measured;
    if |Survivors(measured, |w.trips|)| < |w.trips| {
      RearmKeeps(r, books);
    }
  }

  lemma StopKeeps(w: World, books: map<nat, Book>, id: nat)
    requires Inv(w, books) && HasTrip(w.trips, id)
    ensures Inv(OnStop(w, id, Counter(w.engine)), books)
  {
    EraseKeeps(w.trips, id);
    var t := Find(w.trips, id);
    var engine := if |w.trips| == 1 then w.engine.(running := false) else w.engine;
    var w1 := w.(trips := Erase(w.trips, id), engine := engine,
                 tbfDropped := w.tbfDropped || t.interval == w.ongoingInterval,
                 distanceDropped := w.distanceDropped || t.distance == w.ongoingDistance);
    if w1.trips != [] {
      RearmKeeps(w1, books);
    }
  }

  lemma StartKeeps(w: World, books: map<nat, Book>, e: Event)
    requires Inv(w, books) && e.Start? && Enabled(w, e)
    ensures Inv(Step(w, e), StepBooks(w, books, e))
  {
    var acc := Counter(w.engine);
    var t := Trip(e.id, acc, 0, 0, e.minDistance, e.minInterval);
    var w', books' := Step(w, e), StepBooks(w, books, e);
    if w.trips != [] {
      InsertKeeps(w.trips, t);
      var trips := Insert(w.trips, t);
      if ForcesRestart(w, e) {
        forall i | 0 <= i < |trips|
          ensures Sound(w'.engine, books', trips[i].(ongoing := 0, onRestart := trips[i].thisTrip))
        {
          assert trips[i] in trips;
          if trips[i] != t {
            NewcomerCharges(w, books, trips[i]);
          }
        }
        assert w'.trips == Forget(trips);
      } else {
        forall u | u in trips && u != t
          ensures u.id != t.id
        {
          var i :| 0 <= i < |w.trips| && w.trips[i] == u;
        }
      }
    }
  }

  /** The distance a newcomer's restart drops from a trip is what its book is charged. */
  lemma NewcomerCharges(w: World, books: map<nat, Book>, u: Trip)
    requires Inv(w, books) && u in w.trips
    ensures u.id in Charge(w, books)
    ensures Charge(w, books)[u.id] == books[u.id].(lost := books[u.id].lost + Covered(w.engine, u) - u.thisTrip)
  {}

  lemma ForcedForgets(w: World, e: Event, t: Trip)
    requires DistinctIds(w.trips) && ForcesRestart(w, e) && t in w.trips
    ensures t.(ongoing := 0, onRestart := t.thisTrip) in Step(w, e).trips
    ensures Step(w, e).engine.odo == Step(w, e).engine.base
  {
    var newcomer := Trip(e.id, Counter(w.engine), 0, 0, e.minDistance, e.minInterval);
    var trips := Insert(w.trips, newcomer);
    InsertKeeps(w.trips, newcomer);
    var i :| 0 <= i < |trips| && trips[i] == t;
    assert Step(w, e).trips[i] in Step(w, e).trips;
  }

  /** A restart forced by a newcomer leaves each other trip with what was last reported for it: it falls back by all it
      has covered since. */
  lemma NewcomerCosts(w: World, books: map<nat, Book>, e: Event, t: Trip)
    requires Inv(w, books) && ForcesRestart(w, e) && t in w.trips
    ensures var w' := Step(w, e);
            HasTrip(w'.trips, t.id) &&
            var t' := Find(w'.trips, t.id);
            Covered(w'.engine, t') == t'.thisTrip == t.thisTrip && t'.distance == t.distance &&
            StepBooks(w, books, e)[t.id].lost == books[t.id].lost + (Covered(w.engine, t) - Covered(w'.engine, t'))
  {
    var t', w' := t.(ongoing := 0, onRestart := t.thisTrip), Step(w, e);
    NewcomerCharges(w, books, t);
    ForcedForgets(w, e, t);
    StepKeepsInv(w, books, e);
    assert t.id != e.id by {
      var j :| 0 <= j < |w.trips| && w.trips[j] == t;
    }
  }

  lemma StepKeepsInv(w: World, books: map<nat, Book>, e: Event)
    requires Inv(w, books)
    ensures Inv(Step(w, e), StepBooks(w, books, e))
  {
    if Enabled(w, e) {
      match e
      case Travel(_) =>
      case Start(_, _, _) => StartKeeps(w, books, e);
      case Stop(id) => StopKeeps(w, books, id);
      case Report => ReportKeeps(w, books);
    }
  }

  lemma {:induction false} RunsKeepInv(es: seq<Event>)
    ensures Inv(Run(es).0, Run(es).1)
  {
    if es != [] {
      RunsKeepInv(es[..|es| - 1]);
      var (w, books) := Run(es[..|es| - 1]);
      StepKeepsInv(w, books, es[|es| - 1]);
    }
  }

  // ---------------------------------------------------------------- no trip is reported early

  /** In every run, what is recorded for a trip never exceeds the distance travelled since it joined. */
  lemma RecordedNeverAhead(es: seq<Event>, t: Trip)
    requires t in Run(es).0.trips
    ensures t.id in Run(es).1
    ensures t.thisTrip <= Run(es).0.engine.odo - Run(es).1[t.id].joined
  {
    RunsKeepInv(es);
  }

  /** A report completes exactly the trips whose distance has been travelled since they joined, over and above what
      newcomers have cost them; so none early, and those that lost nothing on time. */
  lemma ReportCompletesExactly(es: seq<Event>, i: nat)
    requires var w := Run(es).0; w.engine.running && i < |w.trips| && Enabled(w, Report)
    ensures var (w, books) := Run(es);
            var t := w.trips[i];
            t.id in books &&
            (Complete(Measure(w.trips, Counter(w.engine))[i]) <==>
             t.distance + books[t.id].lost <= w.engine.odo - books[t.id].joined)
  {
    RunsKeepInv(es);
    var (w, books) := Run(es);
    assert w.trips[i] in w.trips;
  }

  predicate IsCompleted(trips: seq<Trip>, k: nat, id: nat)
    requires k <= |trips|
  {
    exists i :: 0 <= i < k && Complete(trips[i]) && trips[i].id == id
  }

  lemma OneMoreIsCompleted(trips: seq<Trip>, k: nat, id: nat)
    requires 0 < k <= |trips|
    ensures IsCompleted(trips, k, id) <==>
            IsCompleted(trips, k - 1, id) || (Complete(trips[k - 1]) && trips[k - 1].id == id)
  {}

  lemma {:induction false} CompletedIsExact(trips: seq<Trip>, k: nat, id: nat)
    requires k <= |trips|
    ensures id in Completed(trips, k) <==> IsCompleted(trips, k, id)
  {
    if k > 0 {
      CompletedIsExact(trips, k - 1, id);
      OneMoreIsCompleted(trips, k, id);
    }
  }

  /** The report names exactly those trips, in key order, each once. */
  lemma ReportNamesExactly(es: seq<Event>, id: nat)
    requires var w := Run(es).0; w.engine.running && Enabled(w, Report)
    ensures var (w, books) := Run(es);
            var measured := Measure(w.trips, Counter(w.engine));
            id in Completed(measured, |measured|) <==>
            exists i :: 0 <= i < |w.trips| && w.trips[i].id == id && id in books &&
                        w.trips[i].distance + books[id].lost <= w.engine.odo - books[id].joined
    ensures var w := Run(es).0;
            AscendingIds(Completed(Measure(w.trips, Counter(w.engine)), |w.trips|))
  {
    RunsStayAscending(es);
    CompletedAscend(Measure(Run(es).0.trips, Counter(Run(es).0.engine)), |Run(es).0.trips|);
    var (w, books) := Run(es);
    var measured := Measure(w.trips, Counter(w.engine));
    CompletedIsExact(measured, |measured|, id);
    forall i | 0 <= i < |w.trips|
      ensures w.trips[i].id in books
      ensures Complete(measured[i]) <==>
              w.trips[i].distance + books[w.trips[i].id].lost <= w.engine.odo - books[w.trips[i].id].joined
    {
      ReportCompletesExactly(es, i);
    }
  }

  ghost predicate NothingLost(books: map<nat, Book>) {
    forall id :: id in books ==> books[id].lost == 0
  }

  /** A forced restart that finds a trip with something covered since it was last reported. */
  ghost predicate Costs(w: World, e: Event) {
    ForcesRestart(w, e) && exists t :: t in w.trips && t.thisTrip != Covered(w.engine, t)
  }

  lemma StepLosesExactly(w: World, books: map<nat, Book>, e: Event)
    requires Inv(w, books) && NothingLost(books)
    ensures NothingLost(StepBooks(w, books, e)) <==> !Costs(w, e)
  {
    if ForcesRestart(w, e) {
      var after := StepBooks(w, books, e);
      forall t | t in w.trips
        ensures t.id in books && t.id in after && after[t.id].lost == Covered(w.engine, t) - t.thisTrip
      {
        NewcomerCosts(w, books, e, t);
      }
      forall id | id in after && id != e.id && !HasTrip(w.trips, id)
        ensures after[id].lost == 0
      {}
      assert forall id :: HasTrip(w.trips, id) ==> Find(w.trips, id) in w.trips;
    }
  }

  ghost predicate NeverLost(es: seq<Event>) {
    NothingLost(Run(es).1) && (es != [] ==> NeverLost(es[..|es| - 1]))
  }

  ghost predicate NeverCosts(es: seq<Event>) {
    es != [] ==> NeverCosts(es[..|es| - 1]) && !Costs(Run(es[..|es| - 1]).0, es[|es| - 1])
  }

  /** In every run nothing is lost all along exactly if every restart that a newcomer forces finds all trips freshly
      reported; joins, stops and the restarts they and completed trips bring about lose nothing. */
  lemma {:induction false} RunsLoseNothingExactly(es: seq<Event>)
    ensures NeverLost(es) <==> NeverCosts(es)
  {
    if es != [] {
      var init := es[..|es| - 1];
      var (w, books) := Run(init);
      RunsLoseNothingExactly(init);
      RunsKeepInv(init);
      if NothingLost(books) {
        StepLosesExactly(w, books, es[|es| - 1]);
      }
    }
  }

  /** So nothing is lost as long as no newcomer forces a restart. */
  lemma NothingLostWithoutForcing(es: seq<Event>)
    requires forall k :: 0 <= k < |es| ==> !ForcesRestart(Run(es[..k]).0, es[k])
    ensures NeverLost(es)
  {
    NeverForcedNeverCosts(es);
    RunsLoseNothingExactly(es);
  }

  lemma {:induction false} NeverForcedNeverCosts(es: seq<Event>)
    requires forall k :: 0 <= k < |es| ==> !ForcesRestart(Run(es[..k]).0, es[k])
    ensures NeverCosts(es)
  {
    if es != [] {
      var init := es[..|es| - 1];
      forall k | 0 <= k < |init|
        ensures !ForcesRestart(Run(init[..k]).0, init[k])
      {
        assert init[..k] == es[..k] && !ForcesRestart(Run(es[..k]).0, es[k]);
      }
      NeverForcedNeverCosts(init);
      assert !ForcesRestart(Run(es[..|es| - 1]).0, es[|es| - 1]);
    }
  }

  // ---------------------------------------------------------------- the fields beside the list

  /** A stop of a trip with the distance or interval in force marks it dropped, and so does a report that completes such
      a trip; nothing else marks it, and nothing unmarks it. */
  lemma DroppedExactly(w: World, e: Event)
    requires Enabled(w, e)
    ensures Step(w, e).distanceDropped <==>
            w.distanceDropped || (e.Stop? && Find(w.trips, e.id).distance == w.ongoingDistance) ||
            (e.Report? && exists i :: 0 <= i < |w.trips| && w.trips[i].distance == w.ongoingDistance &&
                                      w.trips[i].distance <= Accumulated(w.trips[i], Counter(w.engine)))
    ensures Step(w, e).tbfDropped <==>
            w.tbfDropped || (e.Stop? && Find(w.trips, e.id).interval == w.ongoingInterval) ||
            (e.Report? && exists i :: 0 <= i < |w.trips| && w.trips[i].interval == w.ongoingInterval &&
                                      w.trips[i].distance <= Accumulated(w.trips[i], Counter(w.engine)))
  {
    if e.Report? {
      var measured := Measure(w.trips, Counter(w.engine));
      assert forall i :: 0 <= i < |w.trips| ==> measured[i].distance == w.trips[i].distance;
      SomeComplete(w, measured);
    }
  }

  lemma SomeComplete(w: World, measured: seq<Trip>)
    requires Sane(w) && measured == Measure(w.trips, Counter(w.engine))
    ensures DistanceCompleted(measured, |measured|, w.ongoingDistance) <==>
            exists i :: 0 <= i < |w.trips| && w.trips[i].distance == w.ongoingDistance &&
                        w.trips[i].distance <= Accumulated(w.trips[i], Counter(w.engine))
    ensures IntervalCompleted(measured, |measured|, w.ongoingInterval) <==>
            exists i :: 0 <= i < |w.trips| && w.trips[i].interval == w.ongoingInterval &&
                        w.trips[i].distance <= Accumulated(w.trips[i], Counter(w.engine))
  {
    if i :| 0 <= i < |w.trips| && w.trips[i].distance == w.ongoingDistance &&
            w.trips[i].distance <= Accumulated(w.trips[i], Counter(w.engine)) {
      assert Complete(measured[i]);
    }
    if i :| 0 <= i < |w.trips| && w.trips[i].interval == w.ongoingInterval &&
            w.trips[i].distance <= Accumulated(w.trips[i], Counter(w.engine)) {
      assert Complete(measured[i]);
    }
  }

  /** All distance travelled, while the odometer can hold it. */
  function Travelled(es: seq<Event>): nat {
    if es == [] then 0
    else
      var w, e := Run(es[..|es| - 1]).0, es[|es| - 1];
      Travelled(es[..|es| - 1]) + if e.Travel? && Enabled(w, e) then e.distance else 0
  }

  /** In every run the odometer shows what has been travelled, whatever is armed, stopped or reported meanwhile. */
  lemma {:induction false} OdometerIsTravelled(es: seq<Event>)
    ensures Run(es).0.engine.odo == Travelled(es)
  {
    if es != [] {
      OdometerIsTravelled(es[..|es| - 1]);
      StepTravels(Run(es[..|es| - 1]).0, es[|es| - 1]);
    }
  }

  lemma StepTravels(w: World, e: Event)
    ensures Step(w, e).engine.odo == w.engine.odo + if e.Travel? && Enabled(w, e) then e.distance else 0
  {}

  /** While no trip is live no distance and no interval are in force. */
  ghost predicate IdleIsBare(w: World) {
    w.trips == [] ==> w.ongoingDistance == 0 && w.ongoingInterval == 0
  }

  lemma {:induction false} RunsStayBare(es: seq<Event>)
    ensures IdleIsBare(Run(es).0)
  {
    if es != [] {
      var w, e := Run(es[..|es| - 1]).0, es[|es| - 1];
      RunsStayBare(es[..|es| - 1]);
      if Enabled(w, e) && e.Start? && w.trips != [] {
        assert Insert(w.trips, Trip(e.id, Counter(w.engine), 0, 0, e.minDistance, e.minInterval)) != [];
      }
    }
  }

  /** A first trip arms the engine for itself; a further one joins at the counter's mark, and arms it for the lesser of
      its own and what is left, and of its own and the interval in force, exactly if one of them is its own. */
  lemma StartArms(w: World, e: Event)
    requires e.Start? && Enabled(w, e)
    ensures var w', left := Step(w, e), Sub32(w.ongoingDistance, Counter(w.engine));
            w'.engine == w'.engine.(odo := w.engine.odo) &&
            if w.trips == [] then
              w'.engine.running && w'.engine.base == w.engine.odo && w'.engine.target == e.minDistance &&
              w'.engine.interval == e.minInterval && w'.ongoingDistance == e.minDistance &&
              w'.ongoingInterval == e.minInterval && w'.trips == [Trip(e.id, 0, 0, 0, e.minDistance, e.minInterval)]
            else if e.minDistance < left || e.minInterval < w.ongoingInterval then
              w'.engine.running && w'.engine.base == w.engine.odo &&
              w'.engine.target == w'.ongoingDistance == (if e.minDistance < left then e.minDistance else left) &&
              w'.engine.interval == w'.ongoingInterval ==
                if e.minInterval < w.ongoingInterval then e.minInterval else w.ongoingInterval
            else
              w' == w.(trips := w'.trips) &&
              forall t :: t in w'.trips <==>
                t in w.trips || t == Trip(e.id, Counter(w.engine), 0, 0, e.minDistance, e.minInterval)
  {
    if w.trips != [] {
      InsertMembers(w.trips, Trip(e.id, Counter(w.engine), 0, 0, e.minDistance, e.minInterval));
    }
  }

  lemma {:induction false} InsertMembers(trips: seq<Trip>, t: Trip)
    requires !HasTrip(trips, t.id)
    ensures forall u :: u in Insert(trips, t) <==> u in trips || u == t
  {
    if trips != [] {
      assert trips[0].id != t.id && forall i :: 0 <= i < |trips| - 1 ==> trips[1..][i] == trips[i + 1];
      InsertMembers(trips[1..], t);
      assert trips == [trips[0]] + trips[1..];
    }
  }

  // ---------------------------------------------------------------- the trips stay in key order

  ghost predicate Ascending(trips: seq<Trip>) {
    forall i, j :: 0 <= i < j < |trips| ==> trips[i].id < trips[j].id
  }

  ghost predicate AscendingIds(ids: seq<nat>) {
    forall i, j :: 0 <= i < j < |ids| ==> ids[i] < ids[j]
  }

  lemma {:induction false} InsertAscends(trips: seq<Trip>, t: Trip)
    requires Ascending(trips) && !HasTrip(trips, t.id)
    ensures Ascending(Insert(trips, t))
    ensures forall u :: u in Insert(trips, t) ==> u == t || u in trips
  {
    if trips != [] && trips[0].id < t.id {
      assert !HasTrip(trips[1..], t.id) by {
        assert forall i :: 0 <= i < |trips| - 1 ==> trips[1..][i] == trips[i + 1];
      }
      InsertAscends(trips[1..], t);
      FirstIsLeast(trips[0], Insert(trips[1..], t));
    } else if trips != [] {
      assert trips[0].id != t.id;
    }
  }

  lemma FirstIsLeast(t: Trip, rest: seq<Trip>)
    requires Ascending(rest) && forall u :: u in rest ==> t.id < u.id
    ensures Ascending([t] + rest)
  {}

  lemma {:induction false} EraseAscends(trips: seq<Trip>, id: nat)
    requires Ascending(trips)
    ensures Ascending(Erase(trips, id)) && forall u :: u in Erase(trips, id) ==> u in trips
  {
    if trips != [] {
      EraseAscends(trips[1..], id);
      if trips[0].id != id {
        FirstIsLeast(trips[0], Erase(trips[1..], id));
      }
    }
  }

  /** A report keeps the incomplete trips in key order, each once, */
  lemma {:induction false} SurvivorsAscend(trips: seq<Trip>, k: nat)
    requires k <= |trips| && Ascending(trips)
    ensures Ascending(Survivors(trips, k))
    ensures forall t, i :: t in Survivors(trips, k) && k <= i < |trips| ==> t.id < trips[i].id
  {
    if k > 0 {
      SurvivorsAscend(trips, k - 1);
    }
  }

  /** and names the complete ones so. */
  lemma {:induction false} CompletedAscend(trips: seq<Trip>, k: nat)
    requires k <= |trips| && Ascending(trips)
    ensures AscendingIds(Completed(trips, k))
    ensures forall id, i :: id in Completed(trips, k) && k <= i < |trips| ==> id < trips[i].id
  {
    if k > 0 {
      CompletedAscend(trips, k - 1);
      LastIsGreatest(Completed(trips, k - 1), trips[k - 1].id);
    }
  }

  lemma LastIsGreatest(ids: seq<nat>, last: nat)
    requires AscendingIds(ids) && forall id :: id in ids ==> id < last
    ensures AscendingIds(ids + [last])
  {
    assert forall i :: 0 <= i < |ids| ==> ids[i] in ids;
  }

  lemma StepAscends(w: World, e: Event)
    requires Ascending(w.trips)
    ensures Ascending(Step(w, e).trips)
  {
    if Enabled(w, e) {
      match e
      case Travel(_) =>
      case Start(id, minDistance, minInterval) =>
        InsertAscends(w.trips, Trip(id, Counter(w.engine), 0, 0, minDistance, minInterval));
      case Stop(id) => EraseAscends(w.trips, id);
      case Report => SurvivorsAscend(Measure(w.trips, Counter(w.engine)), |w.trips|);
    }
  }

  /** In every run the trips are in key order; so a report names the completed ones in that order, each once. */
  lemma {:induction false} RunsStayAscending(es: seq<Event>)
    ensures Ascending(Run(es).0.trips)
  {
    if es != [] {
      RunsStayAscending(es[..|es| - 1]);
      StepAscends(Run(es[..|es| - 1]).0, es[|es| - 1]);
    }
  }

  // ---------------------------------------------------------------- the engine reports as often as any trip asks for

  /** The interval in force undercuts that of no trip. */
  ghost predicate IntervalServed(w: World) {
    forall i :: 0 <= i < |w.trips| ==> w.ongoingInterval <= w.trips[i].interval
  }

  /** The scan takes zero for "none yet": it finds the least interval exactly if no trip has a zero one, or the last
      trip of all. */
  lemma {:induction false} IntervalScanIsLeastExactly(trips: seq<Trip>, k: nat)
    requires 0 < k <= |trips|
    ensures (forall i :: 0 <= i < k ==> MinInterval(trips, k) <= trips[i].interval) <==>
            trips[k - 1].interval == 0 || forall i :: 0 <= i < k ==> trips[i].interval > 0
    ensures (forall i :: 0 <= i < k ==> trips[i].interval > 0) ==> MinInterval(trips, k) > 0
  {
    if k > 1 {
      IntervalScanIsLeastExactly(trips, k - 1);
      assert trips[k - 1].interval > 0 ==> MinInterval(trips, k) > 0;
      if i :| 0 <= i < k && trips[i].interval == 0 {
        assert trips[k - 1].interval > 0 ==> MinInterval(trips, k) > trips[i].interval;
      }
    } else {
      assert MinInterval(trips, 0) == 0;
    }
  }

  /** The trip that had the interval in force is gone, another one asks for a zero interval, and the last one of all
      does not. */
  ghost predicate PassesOver(w: World)
    requires w.trips != []
  {
    w.tbfDropped && LastTrip(w).interval != 0 && exists t :: t in w.trips && t.interval == 0
  }

  /** Re-arming keeps the engine frequent enough exactly if it does not pass a zero interval over. */
  lemma RearmServesIntervalsExactly(w: World, acc: uint32)
    requires IntervalServed(w) && w.trips != []
    ensures IntervalServed(Rearm(w, acc)) <==> !PassesOver(w)
  {
    if t :| t in w.trips && t.interval == 0 {
      var i :| 0 <= i < |w.trips| && w.trips[i] == t;
      assert Rearm(w, acc).trips[i].interval == 0;
    } else {
      PositiveScan(w.trips);
    }
  }

  lemma PositiveScan(trips: seq<Trip>)
    requires trips != [] && forall t :: t in trips ==> t.interval != 0
    ensures forall i :: 0 <= i < |trips| ==> MinInterval(trips, |trips|) <= trips[i].interval
  {
    assert forall i :: 0 <= i < |trips| ==> trips[i] in trips;
    IntervalScanIsLeastExactly(trips, |trips|);
  }

  /** Of two trips the first has a zero interval: once another trip with a zero interval has gone, a re-arming gives the
      engine the second one's. */
  lemma ZeroPassedOver(w: World, t: Trip, u: Trip, acc: uint32)
    requires w.trips == [t, u] && t.interval == w.ongoingInterval == 0 < u.interval && w.tbfDropped
    ensures Rearm(w, acc).ongoingInterval == u.interval && Rearm(w, acc).engine.interval == u.interval
    ensures Rearm(w, acc).trips == Carry([t, u], acc)
  {
    assert MinInterval(w.trips, 1) == 0 && MinInterval(w.trips, 2) == u.interval;
  }

  lemma StartServesIntervals(w: World, books: map<nat, Book>, e: Event)
    requires Inv(w, books) && IntervalServed(w) && e.Start? && Enabled(w, e)
    ensures IntervalServed(Step(w, e))
  {
    var newcomer := Trip(e.id, Counter(w.engine), 0, 0, e.minDistance, e.minInterval);
    var trips, w' := Insert(w.trips, newcomer), Step(w, e);
    InsertKeeps(w.trips, newcomer);
    if w.trips != [] {
      forall i | 0 <= i < |w'.trips|
        ensures w'.ongoingInterval <= w'.trips[i].interval
      {
        assert trips[i] in trips && trips[i].interval == w'.trips[i].interval;
      }
    }
  }

  lemma StopServesIntervalsExactly(w: World, books: map<nat, Book>, id: nat)
    requires Inv(w, books) && IntervalServed(w) && HasTrip(w.trips, id)
    ensures var left := LeftAfterStop(w, id);
            IntervalServed(OnStop(w, id, Counter(w.engine))) <==> left.trips == [] || !PassesOver(left)
  {
    var left := LeftAfterStop(w, id);
    EraseKeeps(w.trips, id);
    if left.trips != [] {
      forall i | 0 <= i < |left.trips|
        ensures w.ongoingInterval <= left.trips[i].interval
      {
        assert left.trips[i] in left.trips;
        var j :| 0 <= j < |w.trips| && w.trips[j] == left.trips[i];
      }
      RearmServesIntervalsExactly(left, Counter(w.engine));
    }
  }

  lemma ReportServesIntervalsExactly(w: World, acc: uint32)
    requires IntervalServed(w)
    ensures var left := Reported(w, acc);
            IntervalServed(OnReport(w, acc)) <==>
            |left.trips| == |w.trips| || left.trips == [] || !PassesOver(left)
  {
    var measured, left := Measure(w.trips, acc), Reported(w, acc);
    forall i | 0 <= i < |left.trips|
      ensures w.ongoingInterval <= left.trips[i].interval
    {
      assert left.trips[i] in left.trips;
      var j :| 0 <= j < |measured| && measured[j] == left.trips[i];
    }
    if left.trips != [] {
      RearmServesIntervalsExactly(left, acc);
    }
  }

  /** The stops and reports that leave other trips behind and pass the zero interval of one of them over. */
  ghost predicate Slows(w: World, e: Event) {
    Enabled(w, e) &&
    match e
    case Stop(id) => LeftAfterStop(w, id).trips != [] && PassesOver(LeftAfterStop(w, id))
    case Report =>
      var left := Reported(w, Counter(w.engine));
      0 < |left.trips| < |w.trips| && PassesOver(left)
    case _ => false
  }

  lemma StepServesIntervalsExactly(w: World, books: map<nat, Book>, e: Event)
    requires Inv(w, books) && IntervalServed(w)
    ensures IntervalServed(Step(w, e)) <==> !Slows(w, e)
  {
    if Enabled(w, e) {
      match e
      case Travel(_) =>
      case Start(_, _, _) => StartServesIntervals(w, books, e);
      case Stop(id) => StopServesIntervalsExactly(w, books, id);
      case Report => ReportServesIntervalsExactly(w, Counter(w.engine));
    }
  }

  ghost predicate AlwaysServed(es: seq<Event>) {
    IntervalServed(Run(es).0) && (es != [] ==> AlwaysServed(es[..|es| - 1]))
  }

  ghost predicate NeverSlows(es: seq<Event>) {
    es != [] ==> NeverSlows(es[..|es| - 1]) && !Slows(Run(es[..|es| - 1]).0, es[|es| - 1])
  }

  /** In every run the interval in force undercuts no trip's all along exactly if no event in it is such a one. */
  lemma {:induction false} RunsServeIntervalsExactly(es: seq<Event>)
    ensures AlwaysServed(es) <==> NeverSlows(es)
  {
    if es != [] {
      var init := es[..|es| - 1];
      var (w, books) := Run(init);
      RunsServeIntervalsExactly(init);
      RunsKeepInv(init);
      if IntervalServed(w) {
        StepServesIntervalsExactly(w, books, es[|es| - 1]);
      }
    }
  }

  /** While trips are live some trip asks for the interval in force. */
  ghost predicate IntervalAsked(w: World) {
    w.trips != [] ==> exists t :: t in w.trips && t.interval == w.ongoingInterval
  }

  lemma {:induction false} ScanEndsWithOne(trips: seq<Trip>, k: nat) returns (i: nat)
    requires 0 < k <= |trips|
    ensures i < k && MinInterval(trips, k) == trips[i].interval
  {
    i := k - 1;
    if k > 1 {
      var j := ScanEndsWithOne(trips, k - 1);
      if MinInterval(trips, k) != trips[i].interval {
        i := j;
      }
    }
  }

  /** Re-arming takes up an interval some trip asks for, if the trip with the one in force is gone or it was so
      before. */
  lemma RearmIsAsked(w: World, acc: uint32)
    requires w.tbfDropped || IntervalAsked(w)
    ensures IntervalAsked(Rearm(w, acc))
  {
    var w' := Rearm(w, acc);
    if w.trips != [] {
      var i := ScanEndsWithOne(w.trips, |w.trips|);
      assert w'.trips[i] in w'.trips && w'.trips[i].interval == w.trips[i].interval;
      if w'.ongoingInterval == w.ongoingInterval && IntervalAsked(w) {
        var t :| t in w.trips && t.interval == w.ongoingInterval;
        var j :| 0 <= j < |w.trips| && w.trips[j] == t;
        assert w'.trips[j] in w'.trips;
      }
    }
  }

  lemma StartIsAsked(w: World, books: map<nat, Book>, e: Event)
    requires Inv(w, books) && IntervalAsked(w) && e.Start? && Enabled(w, e)
    ensures IntervalAsked(Step(w, e))
  {
    var newcomer := Trip(e.id, Counter(w.engine), 0, 0, e.minDistance, e.minInterval);
    var trips, w' := Insert(w.trips, newcomer), Step(w, e);
    if w.trips == [] {
      assert w'.trips[0] in w'.trips;
    } else {
      InsertKeeps(w.trips, newcomer);
      var t :| t in w.trips && t.interval == w.ongoingInterval;
      StillAsks(trips, w'.trips, if w'.ongoingInterval == t.interval then t else newcomer);
    }
  }

  lemma StillAsks(trips: seq<Trip>, after: seq<Trip>, t: Trip)
    requires |after| == |trips| && forall i :: 0 <= i < |trips| ==> after[i].interval == trips[i].interval
    requires t in trips
    ensures exists u :: u in after && u.interval == t.interval
  {
    var i :| 0 <= i < |trips| && trips[i] == t;
    assert after[i] in after;
  }

  lemma StopIsAsked(w: World, books: map<nat, Book>, id: nat)
    requires Inv(w, books) && IntervalAsked(w) && HasTrip(w.trips, id)
    ensures IntervalAsked(OnStop(w, id, Counter(w.engine)))
  {
    var left := LeftAfterStop(w, id);
    EraseKeeps(w.trips, id);
    if left.trips != [] {
      var t :| t in w.trips && t.interval == w.ongoingInterval;
      assert t.id != id ==> t in left.trips;
      RearmIsAsked(left, Counter(w.engine));
    }
  }

  lemma ReportIsAsked(w: World, acc: uint32)
    requires IntervalAsked(w)
    ensures IntervalAsked(OnReport(w, acc))
  {
    var measured, left := Measure(w.trips, acc), Reported(w, acc);
    if w.trips != [] {
      var t :| t in w.trips && t.interval == w.ongoingInterval;
      var i :| 0 <= i < |w.trips| && w.trips[i] == t;
      assert measured[i].interval == w.ongoingInterval;
      if Complete(measured[i]) {
        SomeGone(measured, |measured|, i);
        assert left.tbfDropped;
      } else {
        assert measured[i] in left.trips;
      }
      RearmIsAsked(left, acc);
    }
  }

  lemma {:induction false} SomeGone(trips: seq<Trip>, k: nat, i: nat)
    requires i < k <= |trips| && Complete(trips[i])
    ensures |Survivors(trips, k)| < k
  {
    if i < k - 1 {
      SomeGone(trips, k - 1, i);
    }
  }

  /** In every run, while trips are live, the engine reports at the interval some live trip asks for. */
  lemma {:induction false} RunsStayAsked(es: seq<Event>)
    ensures IntervalAsked(Run(es).0)
    ensures var w := Run(es).0; w.trips != [] ==> exists t :: t in w.trips && w.engine.interval == t.interval
  {
    RunsKeepInv(es);
    if es != [] {
      var init, e := es[..|es| - 1], es[|es| - 1];
      var (w, books) := Run(init);
      RunsStayAsked(init);
      RunsKeepInv(init);
      if Enabled(w, e) {
        match e
        case Travel(_) =>
        case Start(_, _, _) => StartIsAsked(w, books, e);
        case Stop(id) => StopIsAsked(w, books, id);
        case Report => ReportIsAsked(w, Counter(w.engine));
      }
    }
  }

  ghost predicate Positive(trips: seq<Trip>) {
    forall t :: t in trips ==> t.interval > 0
  }

  lemma CarryStaysPositive(trips: seq<Trip>, acc: uint32)
    requires Positive(trips)
    ensures Positive(Carry(trips, acc)) && Positive(Forget(trips)) && Positive(Measure(trips, acc))
  {
    assert forall i :: 0 <= i < |trips| ==> trips[i] in trips;
  }

  lemma StepStaysPositive(w: World, books: map<nat, Book>, e: Event)
    requires Inv(w, books) && Positive(w.trips) && (e.Start? ==> e.minInterval > 0)
    ensures Positive(Step(w, e).trips)
  {
    if Enabled(w, e) {
      var acc := Counter(w.engine);
      match e
      case Travel(_) =>
      case Start(id, minDistance, minInterval) =>
        InsertKeeps(w.trips, Trip(id, acc, 0, 0, minDistance, minInterval));
        CarryStaysPositive(Insert(w.trips, Trip(id, acc, 0, 0, minDistance, minInterval)), acc);
      case Stop(id) =>
        EraseKeeps(w.trips, id);
        CarryStaysPositive(Erase(w.trips, id), acc);
      case Report =>
        CarryStaysPositive(w.trips, acc);
        CarryStaysPositive(Reported(w, acc).trips, acc);
    }
  }

  lemma {:induction false} RunsStayPositive(es: seq<Event>)
    requires forall e :: e in es && e.Start? ==> e.minInterval > 0
    ensures Positive(Run(es).0.trips) && NeverSlows(es)
  {
    if es != [] {
      var init, e := es[..|es| - 1], es[|es| - 1];
      var (w, books) := Run(init);
      assert e in es;
      RunsStayPositive(init);
      RunsKeepInv(init);
      StepStaysPositive(w, books, e);
    }
  }

  /** So in every run of trips with positive intervals the engine reports at exactly the least interval that a live trip
      asks for. */
  lemma RunsStayPaced(es: seq<Event>)
    requires forall e :: e in es && e.Start? ==> e.minInterval > 0
    ensures AlwaysServed(es)
    ensures var w := Run(es).0;
            w.trips != [] ==>
              w.engine.running && (forall t :: t in w.trips ==> w.engine.interval <= t.interval) &&
              exists t :: t in w.trips && w.engine.interval == t.interval
  {
    RunsStayAsked(es);
    RunsStayPositive(es);
    RunsServeIntervalsExactly(es);
    RunsKeepInv(es);
  }

  // ---------------------------------------------------------------- the engine is re-armed for the nearest trip

  function Remaining(t: Trip): int {
    t.distance - t.thisTrip
  }

  ghost predicate IsLeastRemaining(trips: seq<Trip>, x: int) {
    (exists i :: 0 <= i < |trips| && Remaining(trips[i]) == x) &&
    forall i :: 0 <= i < |trips| ==> x <= Remaining(trips[i])
  }

  lemma {:induction false} ScanFindsLeast(trips: seq<Trip>, k: nat)
    requires k <= |trips| && forall i :: 0 <= i < |trips| ==> 0 < Remaining(trips[i])
    ensures k > 0 ==> IsLeastRemaining(trips[..k], MinRemaining(trips, k))
    ensures k == 0 ==> MinRemaining(trips, k) == 0
  {
    if k > 1 {
      ScanFindsLeast(trips, k - 1);
      var m, x := MinRemaining(trips, k - 1), Remaining(trips[k - 1]);
      assert trips[..k] == trips[..k - 1] + [trips[k - 1]];
      var i :| 0 <= i < k - 1 && Remaining(trips[..k - 1][i]) == m;
      assert Remaining(trips[..k][if m > x then k - 1 else i]) == MinRemaining(trips, k);
      assert forall j :: 0 <= j < k - 1 ==> trips[..k][j] == trips[..k - 1][j];
    } else if k == 1 {
      assert Remaining(trips[..1][0]) == MinRemaining(trips, 1);
    }
  }

  /** At or past the target the decision goes to the scan's result, however the 32-bit difference wraps. */
  lemma PastTargetDecidesLeast(w: World, acc: uint32)
    requires w.trips != [] && w.ongoingDistance <= acc < HALF
    requires forall i :: 0 <= i < |w.trips| ==> 0 < Remaining(w.trips[i]) < HALF
    ensures Decide(w, acc).Arm? && IsLeastRemaining(w.trips, Decide(w, acc).target)
  {
    ScanFindsLeast(w.trips, |w.trips|);
    assert w.trips[..|w.trips|] == w.trips;
    var i :| 0 <= i < |w.trips| && Remaining(w.trips[i]) == MinRemaining(w.trips, |w.trips|);
  }

  lemma SurvivorsMeasured(w: World, books: map<nat, Book>, i: nat)
    requires Inv(w, books) && i < |Reported(w, Counter(w.engine)).trips|
    ensures var acc := Counter(w.engine);
            var t := Reported(w, acc).trips[i];
            0 < Remaining(t) < HALF && Accumulated(t, acc) == t.thisTrip == Covered(w.engine, t)
  {
    MeasureKeeps(w, books);
    var measured, r := Measure(w.trips, Counter(w.engine)), Reported(w, Counter(w.engine));
    assert r.trips[i] in r.trips && r.trips[i] in measured;
  }

  /** When the engine reports at or past its target and some but not all trips complete, it is re-armed for exactly
      the smallest remaining distance of the others, whichever way the 32-bit difference wraps. */
  lemma ReportRearmsForNearest(w: World, books: map<nat, Book>)
    requires Inv(w, books) && Enabled(w, Report) && w.ongoingDistance <= Counter(w.engine)
    requires 0 < |OnReport(w, Counter(w.engine)).trips| < |w.trips|
    ensures var w' := OnReport(w, Counter(w.engine));
            IsLeastRemaining(w'.trips, w'.engine.target) && w'.engine.running && Counter(w'.engine) == 0 &&
            forall i :: 0 <= i < |w'.trips| ==> w'.trips[i].thisTrip == Covered(w'.engine, w'.trips[i])
  {
    var acc := Counter(w.engine);
    var r, w' := Reported(w, acc), OnReport(w, acc);
    forall i: nat | i < |r.trips|
      ensures 0 < Remaining(r.trips[i]) < HALF && Accumulated(r.trips[i], acc) == r.trips[i].thisTrip
    {
      SurvivorsMeasured(w, books, i);
    }
    PastTargetDecidesLeast(r, acc);
    assert w' == Rearm(r, acc);
    assert forall i :: 0 <= i < |r.trips| ==> Remaining(w'.trips[i]) == Remaining(r.trips[i]);
  }

  // ---------------------------------------------------------------- whether the engine wakes up in time

  /** The engine has no further to go to its target than any trip has to its end. */
  ghost predicate OnTime(w: World) {
    forall t :: t in w.trips ==>
      w.engine.target - (w.engine.odo - w.engine.base) <= t.distance - Covered(w.engine, t)
  }

  /** The newcomer's start that leaves the engine in time: it does not find the engine past its target, or asks for no
      more than any trip had left when it was last reported. */
  ghost predicate StartsInTime(w: World, e: Event)
    requires e.Start? && Sane(w)
  {
    Counter(w.engine) <= w.engine.target || forall t :: t in w.trips ==> e.minDistance <= Remaining(t)
  }

  /** After a forced restart every old trip has left what it had when it was last reported, and the newcomer all. */
  lemma ForcedReach(w: World, books: map<nat, Book>, e: Event)
    requires Inv(w, books) && ForcesRestart(w, e)
    ensures var w' := Step(w, e);
            OnTime(w') <==>
            w'.engine.target <= e.minDistance && forall t :: t in w.trips ==> w'.engine.target <= Remaining(t)
  {
    var newcomer := Trip(e.id, Counter(w.engine), 0, 0, e.minDistance, e.minInterval);
    var trips, w' := Insert(w.trips, newcomer), Step(w, e);
    InsertKeeps(w.trips, newcomer);
    forall i | 0 <= i < |trips|
      ensures trips[i] in trips && w'.trips[i] in w'.trips
      ensures w'.trips[i].distance - Covered(w'.engine, w'.trips[i]) == Remaining(trips[i])
    {
      assert trips[i] in trips && w'.trips[i] in w'.trips;
    }
    if OnTime(w') {
      forall t | t in trips
        ensures w'.engine.target <= Remaining(t)
      {
        var i :| 0 <= i < |trips| && trips[i] == t;
      }
      assert newcomer in trips;
    }
  }

  lemma StartStaysOnTimeExactly(w: World, books: map<nat, Book>, e: Event)
    requires Inv(w, books) && OnTime(w) && e.Start? && Enabled(w, e)
    ensures OnTime(Step(w, e)) <==> StartsInTime(w, e)
  {
    if ForcesRestart(w, e) {
      ForcedReach(w, books, e);
    } else if w.trips != [] {
      InsertKeeps(w.trips, Trip(e.id, Counter(w.engine), 0, 0, e.minDistance, e.minInterval));
    }
  }

  lemma RearmedOnTime(w: World, books: map<nat, Book>)
    requires Inv(w, books) && OnTime(w) && Enabled(w, Report)
    requires var n := |Survivors(Measure(w.trips, Counter(w.engine)), |w.trips|)|; 0 < n < |w.trips|
    ensures OnTime(OnReport(w, Counter(w.engine)))
  {
    var w', measured := OnReport(w, Counter(w.engine)), Measure(w.trips, Counter(w.engine));
    var i := FirstComplete(measured);
    MeasureKeeps(w, books);
    assert w.trips[i] in w.trips && measured[i] in measured;
    ReportRearmsForNearest(w, books);
    forall t | t in w'.trips
      ensures w'.engine.target <= t.distance - Covered(w'.engine, t)
    {
      var j :| 0 <= j < |w'.trips| && w'.trips[j] == t;
      assert w'.engine.target <= Remaining(w'.trips[j]);
    }
  }

  lemma ReportKeepsOnTime(w: World, books: map<nat, Book>)
    requires Inv(w, books) && OnTime(w) && Enabled(w, Report)
    ensures OnTime(OnReport(w, Counter(w.engine)))
  {
    var acc, w' := Counter(w.engine), OnReport(w, Counter(w.engine));
    var measured := Measure(w.trips, acc);
    MeasureKeeps(w, books);
    if |Survivors(measured, |measured|)| == |measured| {
      forall t | t in w'.trips
        ensures w'.engine.target - acc <= t.distance - Covered(w'.engine, t)
      {
        var i :| 0 <= i < |measured| && measured[i] == t;
        assert w.trips[i] in w.trips;
      }
    } else if w'.trips != [] {
      RearmedOnTime(w, books);
    }
  }

  lemma {:induction false} FirstComplete(trips: seq<Trip>) returns (i: nat)
    requires |Survivors(trips, |trips|)| != |trips|
    ensures i < |trips| && Complete(trips[i])
  {
    i := 0;
    while i < |trips| && !Complete(trips[i])
      invariant i <= |trips| && |Survivors(trips, i)| == i
    {
      i := i + 1;
    }
    if i == |trips| {
      assert false;
    }
  }

  /** The list and flags `restartTripBatching` works on after a stop. */
  function LeftAfterStop(w: World, id: nat): World
    requires HasTrip(w.trips, id)
  {
    w.(trips := Erase(w.trips, id),
       tbfDropped := w.tbfDropped || Find(w.trips, id).interval == w.ongoingInterval,
       distanceDropped := w.distanceDropped || Find(w.trips, id).distance == w.ongoingDistance)
  }

  /** How far the trip still has to go. */
  function Reach(w: World, t: Trip): int {
    t.distance - Covered(w.engine, t)
  }

  function LastTrip(w: World): Trip
    requires w.trips != []
  {
    w.trips[|w.trips| - 1]
  }

  /** Whether an engine in time is re-armed for a new distance.  Short of the target it never is, unless the trip it was
      armed for is gone. */
  predicate ArmsForDistance(w: World, acc: uint32)
    requires w.trips != []
  {
    if w.distanceDropped || acc == w.ongoingDistance then Remaining(LastTrip(w)) != 0
    else w.ongoingDistance < acc && MinRemaining(w.trips, |w.trips|) < Sub32(w.ongoingDistance, acc)
  }

  predicate ArmsForInterval(w: World) {
    var min := MinInterval(w.trips, |w.trips|);
    min < w.ongoingInterval || (min != w.ongoingInterval && w.tbfDropped)
  }

  /** A trip nearest its end has nothing covered that was not reported, and is short of its end; or it is the last of
      the list and exactly at its end, which the scan then passes on. */
  ghost predicate NearestIsMeasured(w: World)
    requires w.trips != []
  {
    exists t :: t in w.trips && t.thisTrip == Covered(w.engine, t) &&
                (forall u :: u in w.trips ==> Reach(w, t) <= Reach(w, u)) &&
                (Remaining(t) > 0 || (Remaining(t) == 0 && t == LastTrip(w)))
  }

  /** A re-arming that leaves the engine in time, told from the state before. */
  ghost predicate RearmsInTime(w: World)
    requires w.trips != [] && Sane(w)
  {
    if ArmsForDistance(w, Counter(w.engine)) then NearestIsMeasured(w)
    else ArmsForInterval(w) ==> forall t :: t in w.trips ==> w.ongoingDistance <= Reach(w, t)
  }

  /** The scan of the 32-bit differences: it ends with one of them, with zero exactly if the last one is zero, and with
      the least one if none is zero. */
  lemma {:induction false} ScanOfDifferences(trips: seq<Trip>, k: nat) returns (i: nat)
    requires 0 < k <= |trips|
    ensures i < k && MinRemaining(trips, k) == Sub32(trips[i].distance, trips[i].thisTrip)
    ensures MinRemaining(trips, k) == 0 <==> Sub32(trips[k - 1].distance, trips[k - 1].thisTrip) == 0
    ensures (forall j :: 0 <= j < k ==> Sub32(trips[j].distance, trips[j].thisTrip) > 0) ==>
              forall j :: 0 <= j < k ==> MinRemaining(trips, k) <= Sub32(trips[j].distance, trips[j].thisTrip)
  {
    var m, x := MinRemaining(trips, k - 1), Sub32(trips[k - 1].distance, trips[k - 1].thisTrip);
    i := k - 1;
    if k > 1 {
      var before := ScanOfDifferences(trips, k - 1);
      i := if m == 0 || m > x then k - 1 else before;
    }
  }

  lemma ScanInReach(w: World, books: map<nat, Book>)
    requires Inv(w, books) && w.trips != []
    requires forall t :: t in w.trips ==> MinRemaining(w.trips, |w.trips|) <= Reach(w, t)
    ensures NearestIsMeasured(w)
  {
    var m, last := MinRemaining(w.trips, |w.trips|), LastTrip(w);
    var i := ScanOfDifferences(w.trips, |w.trips|);
    var t := if m == 0 then last else w.trips[i];
    assert t in w.trips && last in w.trips;
    assert Remaining(t) == m && t.thisTrip == Covered(w.engine, t);
  }

  lemma MeasuredInReach(w: World, books: map<nat, Book>, t: Trip)
    requires Inv(w, books) && t in w.trips && t.thisTrip == Covered(w.engine, t)
    requires forall u :: u in w.trips ==> Reach(w, t) <= Reach(w, u)
    requires Remaining(t) > 0 || (Remaining(t) == 0 && t == LastTrip(w))
    ensures MinRemaining(w.trips, |w.trips|) <= Reach(w, t)
  {
    var i := ScanOfDifferences(w.trips, |w.trips|);
    var j :| 0 <= j < |w.trips| && w.trips[j] == t;
    if Remaining(t) > 0 {
      forall k | 0 <= k < |w.trips|
        ensures Sub32(w.trips[k].distance, w.trips[k].thisTrip) > 0
      {
        assert w.trips[k] in w.trips;
      }
    }
  }

  /** What the scan answers is within reach of every trip exactly if a trip nearest its end is freshly measured. */
  lemma ScanInReachExactly(w: World, books: map<nat, Book>)
    requires Inv(w, books) && w.trips != []
    ensures (forall t :: t in w.trips ==> MinRemaining(w.trips, |w.trips|) <= Reach(w, t)) <==> NearestIsMeasured(w)
  {
    if forall t :: t in w.trips ==> MinRemaining(w.trips, |w.trips|) <= Reach(w, t) {
      ScanInReach(w, books);
    } else if NearestIsMeasured(w) {
      var t :| t in w.trips && t.thisTrip == Covered(w.engine, t) &&
               (forall u :: u in w.trips ==> Reach(w, t) <= Reach(w, u)) &&
               (Remaining(t) > 0 || (Remaining(t) == 0 && t == LastTrip(w)));
      MeasuredInReach(w, books, t);
    }
  }

  /** For an engine in time the guard of the source is `ArmsForDistance`. */
  lemma DistanceGuard(w: World, books: map<nat, Book>)
    requires Inv(w, books) && OnTime(w) && w.trips != []
    ensures var acc, m := Counter(w.engine), MinRemaining(w.trips, |w.trips|);
            var left := Sub32(w.ongoingDistance, acc);
            (if !w.distanceDropped && left != 0 then m < left else m != 0) <==> ArmsForDistance(w, acc)
  {
    var n := |w.trips|;
    var i := ScanOfDifferences(w.trips, n);
    assert w.trips[i] in w.trips && LastTrip(w) in w.trips;
  }

  lemma RearmReachesExactly(w: World, books: map<nat, Book>)
    requires Inv(w, books) && OnTime(w) && w.trips != []
    ensures var acc := Counter(w.engine);
            OnTime(Rearm(w, acc)) <==>
            (Decide(w, acc).Arm? ==> forall t :: t in w.trips ==> Decide(w, acc).target <= Reach(w, t))
  {
    var acc := Counter(w.engine);
    var w' := Rearm(w, acc);
    if Decide(w, acc).Arm? {
      forall i | 0 <= i < |w.trips|
        ensures w'.trips[i].distance - Covered(w'.engine, w'.trips[i]) == Reach(w, w.trips[i])
        ensures w.trips[i] in w.trips && w'.trips[i] in w'.trips
      {
        assert w.trips[i] in w.trips && w'.trips[i] in w'.trips;
      }
    }
  }

  /** Re-arming keeps the engine in time exactly if it is for a distance and a trip nearest its end is freshly measured,
      or for the interval alone and the whole old target is within reach of every trip, or not at all. */
  lemma RearmStaysOnTimeExactly(w: World, books: map<nat, Book>)
    requires Inv(w, books) && OnTime(w) && w.trips != []
    ensures OnTime(Rearm(w, Counter(w.engine))) <==> RearmsInTime(w)
  {
    RearmReachesExactly(w, books);
    DistanceGuard(w, books);
    ScanInReachExactly(w, books);
  }

  /** A stop keeps the engine in time exactly if it is that of the only trip, or the re-arming it leads to does. */
  lemma StopStaysOnTimeExactly(w: World, books: map<nat, Book>, id: nat)
    requires Inv(w, books) && OnTime(w) && HasTrip(w.trips, id)
    ensures LeftAfterStop(w, id).trips == [] <==> |w.trips| == 1
    ensures OnTime(OnStop(w, id, Counter(w.engine))) <==> |w.trips| == 1 || RearmsInTime(LeftAfterStop(w, id))
  {
    EraseKeeps(w.trips, id);
    if |w.trips| > 1 {
      RearmStaysOnTimeExactly(LeftAfterStop(w, id), books);
    }
  }

  /** The events that leave an engine in time in time. */
  ghost predicate Timely(w: World, e: Event) {
    match e
    case Start(_, _, _) => Enabled(w, e) ==> StartsInTime(w, e)
    case Stop(id) =>
      Enabled(w, e) && LeftAfterStop(w, id).trips != [] ==> RearmsInTime(LeftAfterStop(w, id))
    case _ => true
  }

  lemma StepStaysOnTimeExactly(w: World, books: map<nat, Book>, e: Event)
    requires Inv(w, books) && OnTime(w)
    ensures OnTime(Step(w, e)) <==> Timely(w, e)
  {
    if Enabled(w, e) {
      match e
      case Travel(_) =>
      case Start(_, _, _) => StartStaysOnTimeExactly(w, books, e);
      case Stop(id) => StopStaysOnTimeExactly(w, books, id);
      case Report => ReportKeepsOnTime(w, books);
    }
  }

  /** In time after every event of the run. */
  ghost predicate AlwaysOnTime(es: seq<Event>) {
    OnTime(Run(es).0) && (es != [] ==> AlwaysOnTime(es[..|es| - 1]))
  }

  ghost predicate AlwaysTimely(es: seq<Event>) {
    es != [] ==> AlwaysTimely(es[..|es| - 1]) && Timely(Run(es[..|es| - 1]).0, es[|es| - 1])
  }

  /** In every run the engine is never due later than any trip needs exactly if every start and stop in it is timely. */
  lemma {:induction false} RunsStayOnTimeExactly(es: seq<Event>)
    ensures AlwaysOnTime(es) <==> AlwaysTimely(es)
  {
    if es != [] {
      var init := es[..|es| - 1];
      var (w, books) := Run(init);
      RunsStayOnTimeExactly(init);
      RunsKeepInv(init);
      if OnTime(w) {
        StepStaysOnTimeExactly(w, books, es[|es| - 1]);
      }
    }
  }

  // ---------------------------------------------------------------- runs that fail some trip

  predicate Fresh(t: Trip) {
    t == Trip(t.id, 0, 0, 0, t.distance, t.interval) && t.distance < HALF
  }

  function StartOf(t: Trip): Event {
    Start(t.id, t.distance, t.interval)
  }

  /** One trip, just started on an idle engine. */
  function Alone(t: Trip): World {
    World([t], t.distance, t.interval, false, false, Engine(true, t.distance, t.interval, 0, 0))
  }

  lemma RunStep(es: seq<Event>, k: nat)
    requires k < |es|
    ensures Run(es[..k + 1]).0 == Step(Run(es[..k]).0, es[k])
  {
    assert es[..k + 1][..k] == es[..k];
  }

  lemma FirstStarts(es: seq<Event>, t: Trip)
    requires |es| > 0 && es[0] == StartOf(t) && Fresh(t)
    ensures Run(es[..1]).0 == Alone(t)
  {
    RunStep(es, 0);
    assert es[..0] == [];
  }

  lemma Travels(es: seq<Event>, k: nat, w: World, x: nat)
    requires k < |es| && es[k] == Travel(x) && w == Run(es[..k]).0 && Enabled(w, Travel(x))
    ensures Run(es[..k + 1]).0 == w.(engine := w.engine.(odo := w.engine.odo + x))
  {
    RunStep(es, k);
  }

  /** A longer or equal trip, no more frequent, joins others at once. */
  lemma QuietJoin(w: World, u: Trip)
    requires Sane(w) && Counter(w.engine) == 0 && w.trips != [] && Fresh(u) && forall t :: t in w.trips ==> t.id < u.id
    requires w.ongoingDistance <= u.distance && w.ongoingInterval <= u.interval
    ensures Step(w, StartOf(u)) == w.(trips := w.trips + [u])
  {
    JoinLast(w.trips, u);
  }

  lemma JoinsQuietly(es: seq<Event>, k: nat, t: Trip, trips: seq<Trip>, u: Trip)
    requires k < |es| && es[k] == StartOf(u) && Fresh(t) && Fresh(u) && trips != []
    requires Run(es[..k]).0 == Alone(t).(trips := trips) && forall x :: x in trips ==> x.id < u.id
    requires t.distance <= u.distance && t.interval <= u.interval
    ensures Run(es[..k + 1]).0 == Alone(t).(trips := trips + [u])
  {
    RunStep(es, k);
    QuietJoin(Alone(t).(trips := trips), u);
  }

  /** A fresh trip starts on an idle engine, a second one no shorter and no less frequent joins at once, and the
      vehicle travels less than the first trip. */
  lemma TwoUnderway(es: seq<Event>, t: Trip, u: Trip, x: nat)
    requires |es| >= 3 && es[0] == StartOf(t) && es[1] == StartOf(u) && es[2] == Travel(x)
    requires Fresh(t) && Fresh(u) && t.id < u.id && t.distance <= u.distance && u.interval <= t.interval
    requires 0 < x < t.distance
    ensures Run(es[..3]).0 ==
            World([t, u], t.distance, u.interval, false, false, Engine(true, t.distance, u.interval, x, 0))
  {
    FirstStarts(es, t);
    RunStep(es, 1);
    SecondJoins(Alone(t), t, u);
    Travels(es, 2, Run(es[..2]).0, x);
  }

  lemma SecondJoins(w: World, t: Trip, u: Trip)
    requires w == Alone(t) && Fresh(t) && Fresh(u)
    requires t.id < u.id && 0 < t.distance <= u.distance && u.interval <= t.interval
    ensures Step(w, StartOf(u)) ==
            World([t, u], t.distance, u.interval, false, false, Engine(true, t.distance, u.interval, 0, 0))
  {
    JoinLast([t], u);
    assert [t] + [u] == [t, u];
    assert Forget([t, u]) == [t, u];
  }

  /** Stopping one of two trips that have not been reported on. */
  lemma StopOneOfTwo(w: World, t: Trip, u: Trip, id: nat)
    requires w.trips == [t, u] && t.id != u.id && (id == t.id || id == u.id) && Sane(w)
    ensures var kept, gone := if id == t.id then u else t, if id == t.id then t else u;
            var left := w.(trips := [kept], tbfDropped := w.tbfDropped || gone.interval == w.ongoingInterval,
                           distanceDropped := w.distanceDropped || gone.distance == w.ongoingDistance);
            Step(w, Stop(id)) == Rearm(left, Counter(w.engine)) &&
            MinRemaining(left.trips, 1) == Sub32(kept.distance, kept.thisTrip) &&
            MinInterval(left.trips, 1) == kept.interval
  {
    assert w.trips[0] == t && w.trips[1] == u && w.trips[1..] == [u] && [u][1..] == [];
    assert Erase([u], id) == (if id == u.id then [] else [u]) by {
      assert Erase([u][1..], id) == [];
    }
    assert Erase(w.trips, id) == [if id == t.id then u else t];
    assert Find(w.trips, id) == if id == t.id then t else u;
    assert MinRemaining([if id == t.id then u else t], 0) == 0 && MinInterval([if id == t.id then u else t], 0) == 0;
  }

  lemma StopsOneOfTwo(es: seq<Event>, t: Trip, u: Trip, x: nat, id: nat)
    requires |es| == 4 && es[3] == Stop(id) && t.id < u.id && (id == t.id || id == u.id)
    requires Run(es[..3]).0 ==
             World([t, u], t.distance, u.interval, false, false, Engine(true, t.distance, u.interval, x, 0))
    requires 0 < x < HALF
    ensures var kept, gone := if id == t.id then u else t, if id == t.id then t else u;
            var left := Run(es[..3]).0.(trips := [kept], tbfDropped := gone.interval == u.interval,
                                        distanceDropped := gone.distance == t.distance);
            Run(es).0 == Rearm(left, x) && MinRemaining(left.trips, 1) == Sub32(kept.distance, kept.thisTrip) &&
            MinInterval(left.trips, 1) == kept.interval
  {
    RunStep(es, 3);
    assert es[..4] == es;
    StopOneOfTwo(Run(es[..3]).0, t, u, id);
  }

  lemma {:induction false} JoinLast(trips: seq<Trip>, t: Trip)
    requires forall u :: u in trips ==> u.id < t.id
    ensures Insert(trips, t) == trips + [t] && !HasTrip(trips, t.id)
  {
    if trips != [] {
      assert trips[0] in trips;
      JoinLast(trips[1..], t);
      assert trips == [trips[0]] + trips[1..];
    }
    assert forall i :: 0 <= i < |trips| ==> trips[i] in trips;
  }

  lemma StopFirst(t: Trip, others: seq<Trip>)
    requires forall u :: u in others ==> u.id != t.id
    ensures HasTrip([t] + others, t.id) && Find([t] + others, t.id) == t && Erase([t] + others, t.id) == others
  {
    var trips := [t] + others;
    assert trips[0] == t && trips[1..] == others;
    NothingToErase(others, t.id);
  }

  lemma {:induction false} NothingToErase(trips: seq<Trip>, id: nat)
    requires forall u :: u in trips ==> u.id != id
    ensures Erase(trips, id) == trips
  {
    if trips != [] {
      assert trips[0] in trips;
      NothingToErase(trips[1..], id);
      assert trips == [trips[0]] + trips[1..];
    }
  }

  /** Three trips start, the first two with a zero interval. */
  lemma ThreeJoin(es: seq<Event>, t: Trip, u: Trip, v: Trip)
    requires |es| >= 3 && es[0] == StartOf(t) && es[1] == StartOf(u) && es[2] == StartOf(v)
    requires Fresh(t) && Fresh(u) && Fresh(v) && t.id < u.id < v.id && t.interval == u.interval == 0 < v.interval
    requires 0 < t.distance <= u.distance && t.distance <= v.distance
    ensures Run(es[..3]).0 == Alone(t).(trips := [t, u, v])
  {
    TwoJoin(es, t, u);
    JoinsQuietly(es, 2, t, [t, u], v);
    assert [t, u] + [v] == [t, u, v];
  }

  lemma TwoJoin(es: seq<Event>, t: Trip, u: Trip)
    requires |es| >= 2 && es[0] == StartOf(t) && es[1] == StartOf(u) && Fresh(t) && Fresh(u) && t.id < u.id
    requires t.interval <= u.interval && t.distance <= u.distance
    ensures Run(es[..2]).0 == Alone(t).(trips := [t, u])
  {
    FirstStarts(es, t);
    RunStep(es, 1);
    SecondJoinsQuietly(Alone(t), t, u);
  }

  lemma SecondJoinsQuietly(w: World, t: Trip, u: Trip)
    requires w == Alone(t) && Fresh(t) && Fresh(u) && t.id < u.id
    requires t.interval <= u.interval && t.distance <= u.distance
    ensures Step(w, StartOf(u)) == Alone(t).(trips := [t, u])
  {
    QuietJoin(w, u);
    assert [t] + [u] == [t, u];
  }

  /** Two trips with a zero interval and one with a positive one start, and the first is stopped: the engine is given
      the positive interval, although the second trip asks for a zero one. */
  lemma ZeroIntervalForgotten(t: Trip, u: Trip, v: Trip)
    requires Fresh(t) && Fresh(u) && Fresh(v) && t.id < u.id < v.id && t.interval == u.interval == 0 < v.interval
    requires 0 < t.distance <= u.distance && t.distance <= v.distance
    ensures var w := Run([StartOf(t), StartOf(u), StartOf(v), Stop(t.id)]).0;
            u in w.trips && u.interval == 0 < v.interval == w.engine.interval && w.engine.running
  {
    var es := [StartOf(t), StartOf(u), StartOf(v), Stop(t.id)];
    ThreeJoin(es, t, u, v);
    RunStep(es, 3);
    assert es[..4] == es;
    FirstStops(Run(es[..3]).0, t, u, v);
  }

  lemma FirstStops(w: World, t: Trip, u: Trip, v: Trip)
    requires w == Alone(t).(trips := [t, u, v]) && Fresh(t) && Fresh(u) && Fresh(v) && t.id < u.id < v.id
    requires t.interval == u.interval == 0 < v.interval
    ensures var w' := Step(w, Stop(t.id)); u in w'.trips && w'.engine.interval == v.interval && w'.engine.running
  {
    StopFirst(t, [u, v]);
    var left := w.(trips := [u, v], tbfDropped := true, distanceDropped := true);
    assert Step(w, Stop(t.id)) == Rearm(left, 0) by {
      assert w.trips[0] == t && [t] + [u, v] == [t, u, v];
    }
    ZeroPassedOver(left, u, v, 0);
    assert Carry([u, v], 0)[0] == u;
  }

  /** The same when the first trip is not stopped but completes, and the engine is re-armed by the report of it. */
  lemma ZeroIntervalForgottenAtReport(t: Trip, u: Trip, v: Trip)
    requires Fresh(t) && Fresh(u) && Fresh(v) && t.id < u.id < v.id && t.interval == u.interval == 0 < v.interval
    requires 0 < t.distance < u.distance && t.distance < v.distance
    ensures var w := Run([StartOf(t), StartOf(u), StartOf(v), Travel(t.distance), Report]).0;
            |w.trips| == 2 && w.trips[0].id == u.id && w.trips[0].interval == 0 < v.interval == w.engine.interval &&
            w.engine.running
  {
    var es := [StartOf(t), StartOf(u), StartOf(v), Travel(t.distance), Report];
    ThreeJoin(es, t, u, v);
    Travels(es, 3, Run(es[..3]).0, t.distance);
    RunStep(es, 4);
    assert es[..5] == es;
    FirstCompletes(Run(es[..4]).0, t, u, v);
  }

  lemma FirstCompletes(w: World, t: Trip, u: Trip, v: Trip)
    requires Fresh(t) && Fresh(u) && Fresh(v) && t.interval == u.interval == 0 < v.interval
    requires 0 < t.distance < u.distance && t.distance < v.distance
    requires w == World([t, u, v], t.distance, 0, false, false, Engine(true, t.distance, 0, t.distance, 0))
    ensures var w' := Step(w, Report);
            |w'.trips| == 2 && w'.trips[0].id == u.id && w'.trips[0].interval == 0 &&
            w'.engine.interval == v.interval && w'.engine.running
  {
    var d := t.distance;
    var t', u', v' := t.(thisTrip := d), u.(thisTrip := d), v.(thisTrip := d);
    assert Measure(w.trips, d) == [t', u', v'];
    assert Survivors([t', u', v'], 0) == [] && Survivors([t', u', v'], 1) == [];
    assert Survivors([t', u', v'], 2) == [u'] && Survivors([t', u', v'], 3) == [u', v'];
    var left := Reported(w, d);
    assert IntervalCompleted([t', u', v'], 3, 0) by {
      assert Complete([t', u', v'][0]);
    }
    ZeroPassedOver(left, u', v', d);
  }

  /** A trip is underway and overdue when a longer one joins: the engine is armed for the newcomer's distance, and the
      first trip, which nobody has reported, is back at its start. */
  lemma LateNewcomerDelays(t: Trip, u: Trip, x: nat)
    requires Fresh(t) && Fresh(u) && t.id < u.id && t.distance < u.distance && t.distance < x < HALF
    ensures var w := Run([StartOf(t), Travel(x), StartOf(u)]).0;
            w.trips == [t, u] && w.engine.target == u.distance && w.engine.odo == w.engine.base && !OnTime(w)
  {
    LateStepByStep([StartOf(t), Travel(x), StartOf(u)], t, u, x);
  }

  lemma LateStepByStep(es: seq<Event>, t: Trip, u: Trip, x: nat)
    requires Fresh(t) && Fresh(u) && t.id < u.id && t.distance < u.distance && t.distance < x < HALF
    requires |es| == 3 && es[0] == StartOf(t) && es[1] == Travel(x) && es[2] == StartOf(u)
    ensures var w := Run(es).0;
            w.trips == [t, u] && w.engine.target == u.distance && w.engine.odo == w.engine.base && !OnTime(w)
  {
    FirstStarts(es, t);
    Travels(es, 1, Alone(t), x);
    LateJoins(es, Alone(t).(engine := Engine(true, t.distance, t.interval, x, 0)), t, u);
  }

  lemma LateJoins(es: seq<Event>, w: World, t: Trip, u: Trip)
    requires |es| == 3 && es[2] == StartOf(u) && w == Run(es[..2]).0
    requires w.trips == [t] && t.id < u.id && Sane(w) && w.ongoingDistance < Counter(w.engine)
    requires Fresh(t) && Fresh(u) && w.ongoingDistance == t.distance < u.distance
    ensures var w' := Run(es).0;
            w'.trips == [t, u] && w'.engine.target == u.distance && w'.engine.odo == w'.engine.base && !OnTime(w')
  {
    RunStep(es, 2);
    assert es[..3] == es;
    LateJoin(w, t, u);
  }

  lemma LateJoin(w: World, t: Trip, u: Trip)
    requires w.trips == [t] && t.id < u.id && Sane(w) && w.ongoingDistance < Counter(w.engine)
    requires Fresh(t) && Fresh(u) && w.ongoingDistance == t.distance < u.distance
    ensures var w' := Step(w, StartOf(u));
            w'.trips == [t, u] && w'.engine.target == u.distance && w'.engine.odo == w'.engine.base && !OnTime(w')
  {
    var newcomer := Trip(u.id, Counter(w.engine), 0, 0, u.distance, u.interval);
    var w' := Step(w, StartOf(u));
    assert w.trips[0] == t && Insert([], newcomer) == [newcomer] && w.trips[1..] == [];
    assert Insert(w.trips, newcomer) == [t, newcomer];
    assert !HasTrip(w.trips, u.id);
    assert Forget([t, newcomer]) == [t, u];
    assert w'.trips[0] == t && t in w'.trips;
  }

  /** Of two trips the first is stopped after `x`: the engine is armed for the whole of the second one, although
      that has already covered `x` of it. */
  lemma StopForgetsUnreported(t: Trip, u: Trip, x: nat)
    requires Fresh(t) && Fresh(u) && t.id < u.id && t.interval == u.interval
    requires 0 < x < t.distance <= u.distance
    ensures var w := Run([StartOf(t), StartOf(u), Travel(x), Stop(t.id)]).0;
            w.engine.target == u.distance && |w.trips| == 1 && w.trips[0].id == u.id &&
            w.trips[0].distance - Covered(w.engine, w.trips[0]) == u.distance - x
  {
    var es := [StartOf(t), StartOf(u), Travel(x), Stop(t.id)];
    TwoUnderway(es, t, u, x);
    StopsOneOfTwo(es, t, u, x, t.id);
  }

  /** Of two trips the second, longer and more frequent one is stopped after `x`: only the interval changes, yet the
      engine counts the whole of the first trip again, of which `x` is covered. */
  lemma IntervalChangeStartsOver(t: Trip, u: Trip, x: nat)
    requires Fresh(t) && Fresh(u) && t.id < u.id && u.interval < t.interval && 0 < x < t.distance < u.distance
    ensures var w := Run([StartOf(t), StartOf(u), Travel(x), Stop(u.id)]).0;
            w.engine.target == t.distance && |w.trips| == 1 && w.trips[0].id == t.id &&
            w.trips[0].distance - Covered(w.engine, w.trips[0]) == t.distance - x
  {
    var es := [StartOf(t), StartOf(u), Travel(x), Stop(u.id)];
    TwoUnderway(es, t, u, x);
    StopsOneOfTwo(es, t, u, x, u.id);
  }
}
