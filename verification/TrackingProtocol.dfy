/**
 Time-based and distance-based tracking (gps/gnss/GnssAdapter.cpp): many time-based sessions share one engine session.

 The engine remembers the options it was last started with.  Engine calls succeed and are answered before the next
 event.  `supported` says whether the engine offers distance-based tracking; it is fixed for a run.
 */
module TrackingProtocol {
  import opened Wrappers

  const MODULUS := 0x1_0000_0000
  const MIN_TRACKING_INTERVAL := 100
  const TRACKING_TBM_THRESHOLD_MILLIS := 480000
  const POWER_MODE_INVALID := 0
  const POWER_MODE_M2 := 2
  const POWER_MODE_M4 := 4

  type uint32 = x: int | 0 <= x < MODULUS
  type PowerMode = x: int | 0 <= x <= 5

  datatype Key = Key(client: nat, id: nat)

  /** `TrackingOptions`; `mode` stands for the fields the multiplexer only copies. */
  datatype Options = Options(
    size: uint32, interval: uint32, distance: uint32, mode: nat, power: PowerMode, tbm: uint32)

  datatype Session = Session(key: Key, options: Options)

  /** The engine's one time-based session, and its distance-based sessions by id. */
  datatype Engine = Engine(running: bool, options: Options, distance: map<nat, Options>)

  datatype Error = Success | InvalidParameter | IdUnknown

  datatype Answer = Answer(key: Key, error: Error)

  datatype World = World(timeBased: seq<Session>, distanceBased: seq<Session>, engine: Engine, answers: seq<Answer>)

  /** `EngineUp` is the end of an engine reset: the engine has lost all its sessions. */
  datatype Event =
    | Start(key: Key, options: Options, hasCallback: bool)
    | Update(key: Key, options: Options)
    | Stop(key: Key)
    | EngineUp

  // ---------------------------------------------------------------- session maps, in key order

  predicate Less(a: Key, b: Key) {
    a.id < b.id || (a.id == b.id && a.client < b.client)
  }

  predicate Live(sessions: seq<Session>, key: Key) {
    exists i :: 0 <= i < |sessions| && sessions[i].key == key
  }

  function Find(sessions: seq<Session>, key: Key): (s: Session)
    requires Live(sessions, key)
    ensures s in sessions && s.key == key
  {
    if sessions[0].key == key then sessions[0] else Find(sessions[1..], key)
  }

  function Put(sessions: seq<Session>, s: Session): seq<Session> {
    if sessions == [] then [s]
    else if sessions[0].key == s.key then [s] + sessions[1..]
    else if Less(s.key, sessions[0].key) then [s] + sessions
    else [sessions[0]] + Put(sessions[1..], s)
  }

  function Remove(sessions: seq<Session>, key: Key): seq<Session> {
    if sessions == [] then []
    else if sessions[0].key == key then Remove(sessions[1..], key)
    else [sessions[0]] + Remove(sessions[1..], key)
  }

  // ---------------------------------------------------------------- pieces of the code

  const NO_OPTIONS := Options(0, 0, 0, 0, POWER_MODE_INVALID, 0)

  /** The options with the smallest interval so far; a size of zero stands for "none yet". */
  function Smallest(sessions: seq<Session>, k: nat, skip: Option<Key>): Options
    requires k <= |sessions|
  {
    if k == 0 then NO_OPTIONS
    else
      var m, s := Smallest(sessions, k - 1, skip), sessions[k - 1];
      if Some(s.key) != skip && (m.size == 0 || s.options.interval < m.interval) then s.options else m
  }

  /** The smallest power mode so far; the invalid mode stands for "none yet". */
  function Power(sessions: seq<Session>, k: nat, skip: Option<Key>): PowerMode
    requires k <= |sessions|
  {
    if k == 0 then POWER_MODE_INVALID
    else
      var m, s := Power(sessions, k - 1, skip), sessions[k - 1];
      if Some(s.key) != skip && (m == POWER_MODE_INVALID || s.options.power < m) then s.options.power else m
  }

  /** The options with the highest power so far, as chosen after an engine reset. */
  function Highest(sessions: seq<Session>, k: nat): Options
    requires k <= |sessions|
  {
    if k == 0 then NO_OPTIONS
    else
      var m, o := Highest(sessions, k - 1), sessions[k - 1].options;
      if m.size == 0 || (o.power != POWER_MODE_INVALID && o.power < m.power) then o else m
  }

  function AtLeastMinimum(o: Options): Options {
    if o.interval < MIN_TRACKING_INTERVAL then o.(interval := MIN_TRACKING_INTERVAL) else o
  }

  function FallBack(o: Options): Options {
    if o.power == POWER_MODE_M4 && o.tbm > TRACKING_TBM_THRESHOLD_MILLIS then o.(power := POWER_MODE_M2) else o
  }

  /** What the engine is to be told, if anything. */
  datatype Command = Keep | Arm(options: Options) | Halt

  function Obey(e: Engine, c: Command): Engine {
    match c
    case Keep => e
    case Arm(o) => e.(running := true, options := o)
    case Halt => e.(running := false)
  }

  /** Whether new options ask for more than the smallest interval and power mode of the others. */
  function Widen(m: Options, p: PowerMode, o: Options): Command {
    if o.interval < m.interval || o.power < p then
      Arm(m.(interval := if o.interval < m.interval then o.interval else m.interval,
             power := if o.power < p then o.power else m.power))
    else Keep
  }

  /** `startTimeBasedTrackingMultiplex`. */
  function Join(sessions: seq<Session>, o: Options): Command {
    if sessions == [] then Arm(o)
    else Widen(Smallest(sessions, |sessions|, None), Power(sessions, |sessions|, None), o)
  }

  /** `updateTrackingMultiplex`. */
  function Amend(sessions: seq<Session>, key: Key, o: Options): Command
    requires Live(sessions, key)
  {
    var was := Find(sessions, key).options;
    if was.interval == o.interval && was.power == o.power then Keep
    else if |sessions| == 1 then Arm(o)
    else Widen(Smallest(sessions, |sessions|, Some(key)), Power(sessions, |sessions|, Some(key)), o)
  }

  /** `stopTimeBasedTrackingMultiplex`. */
  function Leave(sessions: seq<Session>, key: Key): Command
    requires Live(sessions, key)
  {
    if |sessions| == 1 then Halt
    else
      var was := Find(sessions, key).options;
      var m, p := Smallest(sessions, |sessions|, Some(key)), Power(sessions, |sessions|, Some(key));
      if was.interval < m.interval || was.power < p then Arm(m.(power := p)) else Keep
  }

  /** `saveTrackingSession`. */
  function Save(supported: bool, w: World, key: Key, o: Options): World {
    if o.distance > 0 && supported then w.(distanceBased := Put(w.distanceBased, Session(key, o)))
    else w.(timeBased := Put(w.timeBased, Session(key, o)))
  }

  /** `eraseTrackingSession`. */
  function EraseSession(w: World, key: Key): World {
    if Live(w.timeBased, key) then w.(timeBased := Remove(w.timeBased, key))
    else w.(distanceBased := Remove(w.distanceBased, key))
  }

  // ---------------------------------------------------------------- one event

  function Replied(w: World, key: Key, error: Error): World {
    w.(answers := w.answers + [Answer(key, error)])
  }

  function Commanded(w: World, c: Command): World {
    w.(engine := Obey(w.engine, c))
  }

  function DistanceStarted(w: World, id: nat, o: Options): World {
    w.(engine := w.engine.(distance := w.engine.distance[id := o]))
  }

  function DistanceStopped(w: World, id: nat): World {
    w.(engine := w.engine.(distance := w.engine.distance - {id}))
  }

  /** A start that is refused is not answered. */
  function OnStart(supported: bool, w: World, key: Key, options: Options, hasCallback: bool): World {
    if !hasCallback || options.size == 0 then w
    else
      var o := AtLeastMinimum(options);
      if o.distance > 0 && supported then
        Replied(DistanceStarted(Save(supported, w, key, o), key.id, o), key, Success)
      else
        Replied(Save(supported, Commanded(w, Join(w.timeBased, FallBack(o))), key, FallBack(o)), key, Success)
  }

  function OnUpdate(supported: bool, w: World, key: Key, options: Options): World {
    var isTimeBased, isDistanceBased := Live(w.timeBased, key), Live(w.distanceBased, key);
    if !isTimeBased && !isDistanceBased then Replied(w, key, IdUnknown)
    else if options.size == 0 then Replied(w, key, InvalidParameter)
    else
      var o := AtLeastMinimum(FallBack(options));
      if isTimeBased && o.distance > 0 then
        var left := EraseSession(Commanded(w, Leave(w.timeBased, key)), key);
        Replied(DistanceStarted(Save(supported, left, key, o), key.id, o), key, Success)
      else if isDistanceBased && o.distance == 0 then
        var left := DistanceStopped(EraseSession(w, key), key.id);
        Replied(Save(supported, Commanded(left, Join(left.timeBased, o)), key, o), key, Success)
      else if isTimeBased then
        Replied(Save(supported, Commanded(w, Amend(w.timeBased, key, o)), key, o), key, Success)
      else
        Replied(Save(supported, DistanceStarted(DistanceStopped(w, key.id), key.id, o), key, o), key, Success)
  }

  function OnStop(w: World, key: Key): World {
    if Live(w.timeBased, key) then
      Replied(EraseSession(Commanded(w, Leave(w.timeBased, key)), key), key, Success)
    else if Live(w.distanceBased, key) then
      Replied(EraseSession(DistanceStopped(w, key.id), key), key, Success)
    else Replied(w, key, IdUnknown)
  }

  /** The first `k` distance-based sessions, by id. */
  function Restarted(sessions: seq<Session>, k: nat): map<nat, Options>
    requires k <= |sessions|
  {
    if k == 0 then map[] else Restarted(sessions, k - 1)[sessions[k - 1].key.id := sessions[k - 1].options]
  }

  /** `setLocationOptions`: everything but the power mode and the time between measurements. */
  function Compromise(highest: Options, smallest: Options): Options {
    smallest.(power := highest.power, tbm := highest.tbm)
  }

  function OnEngineUp(w: World): World {
    var n := |w.timeBased|;
    w.(engine := Engine(n > 0,
                        if n > 0 then Compromise(Highest(w.timeBased, n), Smallest(w.timeBased, n, None))
                        else NO_OPTIONS,
                        Restarted(w.distanceBased, |w.distanceBased|)))
  }

  /** Session ids are new when a session starts. */
  predicate Enabled(w: World, e: Event) {
    e.Start? ==>
      (forall s :: s in w.timeBased ==> s.key.id != e.key.id) &&
      forall s :: s in w.distanceBased ==> s.key.id != e.key.id
  }

  /** An event that cannot happen leaves everything as it is. */
  function Step(supported: bool, w: World, e: Event): World {
    if !Enabled(w, e) then w
    else
      match e
      case Start(key, options, hasCallback) => OnStart(supported, w, key, options, hasCallback)
      case Update(key, options) => OnUpdate(supported, w, key, options)
      case Stop(key) => OnStop(w, key)
      case EngineUp => OnEngineUp(w)
  }

  const Initial := World([], [], Engine(false, NO_OPTIONS, map[]), [])

  function Run(supported: bool, es: seq<Event>): World {
    if es == [] then Initial else Step(supported, Run(supported, es[..|es| - 1]), es[|es| - 1])
  }

  // ---------------------------------------------------------------- the laws

  /** In key order, no two with one id. */
  ghost predicate Ordered(sessions: seq<Session>) {
    forall i, j :: 0 <= i < j < |sessions| ==> sessions[i].key.id < sessions[j].key.id
  }

  ghost predicate Apart(a: seq<Session>, b: seq<Session>) {
    forall s, t :: s in a && t in b ==> s.key.id != t.key.id
  }

  ghost predicate Sized(sessions: seq<Session>) {
    forall s :: s in sessions ==> s.options.size > 0
  }

  /** The engine runs exactly when a time-based session is live, at least as often as any of them asks for. */
  ghost predicate TimeServed(e: Engine, sessions: seq<Session>) {
    (e.running <==> sessions != []) && forall s :: s in sessions ==> e.options.interval <= s.options.interval
  }

  ghost predicate HasId(sessions: seq<Session>, id: nat) {
    exists s :: s in sessions && s.key.id == id
  }

  /** The engine has exactly the live distance-based sessions, with the options last given for them. */
  ghost predicate Tracks(d: map<nat, Options>, sessions: seq<Session>) {
    (forall s :: s in sessions ==> s.key.id in d && d[s.key.id] == s.options) &&
    forall id :: id in d ==> HasId(sessions, id)
  }

  ghost predicate Shaped(supported: bool, w: World) {
    Ordered(w.timeBased) && Ordered(w.distanceBased) && Apart(w.timeBased, w.distanceBased) &&
    Sized(w.timeBased) && Sized(w.distanceBased) && (!supported ==> w.distanceBased == [])
  }

  ghost predicate Inv(supported: bool, w: World) {
    Shaped(supported, w) && TimeServed(w.engine, w.timeBased) && Tracks(w.engine.distance, w.distanceBased)
  }

  /** A live time-based session is told to become distance-based on an engine without such sessions. */
  predicate Unserved(supported: bool, w: World, e: Event) {
    !supported && e.Update? && Live(w.timeBased, e.key) && e.options.size > 0 && e.options.distance > 0
  }

  // ---------------------------------------------------------------- the maps

  lemma OrderedCons(s: Session, rest: seq<Session>)
    requires Ordered(rest) && forall u :: u in rest ==> s.key.id < u.key.id
    ensures Ordered([s] + rest)
  {}

  lemma {:induction false} PutKeeps(sessions: seq<Session>, s: Session)
    requires Ordered(sessions) && forall u :: u in sessions && u.key.id == s.key.id ==> u.key == s.key
    ensures forall u :: u in Put(sessions, s) <==> u == s || (u in sessions && u.key != s.key)
    ensures Ordered(Put(sessions, s)) && Put(sessions, s) != []
  {
    if sessions != [] {
      var first, rest := sessions[0], sessions[1..];
      assert sessions == [first] + rest;
      PutKeeps(rest, s);
      if first.key == s.key {
        OrderedCons(s, rest);
      } else if Less(s.key, first.key) {
        OrderedCons(s, sessions);
      } else {
        OrderedCons(first, Put(rest, s));
      }
    }
  }

  lemma {:induction false} RemoveKeeps(sessions: seq<Session>, key: Key)
    requires Ordered(sessions)
    ensures forall u :: u in Remove(sessions, key) <==> u in sessions && u.key != key
    ensures Ordered(Remove(sessions, key))
    ensures |Remove(sessions, key)| == if Live(sessions, key) then |sessions| - 1 else |sessions|
  {
    if sessions != [] {
      var first, rest := sessions[0], sessions[1..];
      assert sessions == [first] + rest;
      RemoveKeeps(rest, key);
      if first.key == key {
        assert !Live(rest, key);
      } else {
        OrderedCons(first, Remove(rest, key));
      }
    }
  }

  // ---------------------------------------------------------------- the scans

  /** The scan answers with the options of a session that is not skipped and has the least interval of those. */
  lemma {:induction false} SmallestIsLeast(sessions: seq<Session>, k: nat, skip: Option<Key>)
    requires k <= |sessions| && Sized(sessions)
    ensures var m := Smallest(sessions, k, skip);
            (forall i :: 0 <= i < k && Some(sessions[i].key) != skip ==>
               m.size > 0 && m.interval <= sessions[i].options.interval) &&
            if m.size > 0 then exists i :: 0 <= i < k && Some(sessions[i].key) != skip && m == sessions[i].options
            else m == NO_OPTIONS
  {
    if k > 0 {
      SmallestIsLeast(sessions, k - 1, skip);
      assert sessions[k - 1] in sessions;
    }
  }

  /** Every session that is not skipped has a power mode no smaller than the scan's, if all of them are valid. */
  lemma {:induction false} PowerIsLeast(sessions: seq<Session>, k: nat, skip: Option<Key>)
    requires k <= |sessions| && Powered(sessions)
    ensures var p := Power(sessions, k, skip);
            (forall i :: 0 <= i < k && Some(sessions[i].key) != skip ==> 0 < p <= sessions[i].options.power) &&
            (p > 0 ==> exists i :: 0 <= i < k && Some(sessions[i].key) != skip && p == sessions[i].options.power)
  {
    if k > 0 {
      PowerIsLeast(sessions, k - 1, skip);
      assert sessions[k - 1] in sessions;
    }
  }

  ghost predicate Powered(sessions: seq<Session>) {
    forall s :: s in sessions ==> s.options.power != POWER_MODE_INVALID
  }

  lemma SmallestOfOthers(sessions: seq<Session>, skip: Option<Key>)
    requires Sized(sessions)
    ensures var m := Smallest(sessions, |sessions|, skip);
            (forall s :: s in sessions && Some(s.key) != skip ==> m.size > 0 && m.interval <= s.options.interval) &&
            if m.size > 0 then exists s :: s in sessions && Some(s.key) != skip && m == s.options else m == NO_OPTIONS
  {
    var m := Smallest(sessions, |sessions|, skip);
    SmallestIsLeast(sessions, |sessions|, skip);
    if m.size > 0 {
      var i :| 0 <= i < |sessions| && Some(sessions[i].key) != skip && m == sessions[i].options;
      assert sessions[i] in sessions;
    }
  }

  /** With two or more sessions there is another one. */
  lemma AnotherSession(sessions: seq<Session>, key: Key) returns (s: Session)
    requires Ordered(sessions) && |sessions| > 1
    ensures s in sessions && s.key != key
  {
    s := if sessions[0].key == key then sessions[1] else sessions[0];
  }

  // ---------------------------------------------------------------- the engine serves every session

  lemma JoinServes(e: Engine, sessions: seq<Session>, s: Session)
    requires Ordered(sessions) && Sized(sessions) && TimeServed(e, sessions)
    requires forall u :: u in sessions ==> u.key.id != s.key.id
    ensures TimeServed(Obey(e, Join(sessions, s.options)), Put(sessions, s))
  {
    PutKeeps(sessions, s);
    if sessions != [] {
      assert sessions[0] in sessions;
      WidenServes(e, sessions, s.options);
    }
  }

  /** New options are no less frequent than they ask for, and than what the engine does. */
  lemma WidenServes(e: Engine, sessions: seq<Session>, o: Options)
    requires Sized(sessions) && TimeServed(e, sessions) && sessions != []
    ensures var e' := Obey(e, Join(sessions, o));
            e'.running && e'.options.interval <= o.interval &&
            forall u :: u in sessions ==> e'.options.interval <= u.options.interval
  {
    SmallestOfOthers(sessions, None);
    assert sessions[0] in sessions;
  }

  lemma AmendServes(e: Engine, sessions: seq<Session>, s: Session)
    requires Ordered(sessions) && Sized(sessions) && TimeServed(e, sessions)
    requires Live(sessions, s.key) && forall u :: u in sessions && u.key.id == s.key.id ==> u.key == s.key
    ensures TimeServed(Obey(e, Amend(sessions, s.key, s.options)), Put(sessions, s))
  {
    AmendReaches(e, sessions, s);
    PutKeeps(sessions, s);
  }

  /** New options are no less frequent than they ask for, and than the others do. */
  lemma AmendReaches(e: Engine, sessions: seq<Session>, s: Session)
    requires Ordered(sessions) && Sized(sessions) && TimeServed(e, sessions) && Live(sessions, s.key)
    ensures var e' := Obey(e, Amend(sessions, s.key, s.options));
            e'.running && e'.options.interval <= s.options.interval &&
            forall u :: u in sessions && u.key != s.key ==> e'.options.interval <= u.options.interval
  {
    SmallestOfOthers(sessions, Some(s.key));
    assert Find(sessions, s.key) in sessions;
    if |sessions| == 1 {
      assert forall u :: u in sessions ==> u == sessions[0];
    } else {
      var u := AnotherSession(sessions, s.key);
    }
  }

  lemma LeaveServes(e: Engine, sessions: seq<Session>, key: Key)
    requires Ordered(sessions) && Sized(sessions) && TimeServed(e, sessions) && Live(sessions, key)
    ensures TimeServed(Obey(e, Leave(sessions, key)), Remove(sessions, key))
  {
    RemoveKeeps(sessions, key);
    SmallestOfOthers(sessions, Some(key));
    if |sessions| > 1 {
      var u := AnotherSession(sessions, key);
    }
  }

  lemma {:induction false} RestartedIsExact(sessions: seq<Session>, k: nat)
    requires k <= |sessions| && Ordered(sessions)
    ensures var m := Restarted(sessions, k);
            (forall i :: 0 <= i < k ==> sessions[i].key.id in m && m[sessions[i].key.id] == sessions[i].options) &&
            forall id :: id in m ==> exists i :: 0 <= i < k && sessions[i].key.id == id
  {
    if k > 0 {
      RestartedIsExact(sessions, k - 1);
    }
  }

  lemma EngineUpServes(w: World)
    requires Ordered(w.distanceBased) && Sized(w.timeBased)
    ensures TimeServed(OnEngineUp(w).engine, w.timeBased) && Tracks(OnEngineUp(w).engine.distance, w.distanceBased)
  {
    SmallestOfOthers(w.timeBased, None);
    RestartedIsExact(w.distanceBased, |w.distanceBased|);
    forall id | id in OnEngineUp(w).engine.distance
      ensures HasId(w.distanceBased, id)
    {
      var i :| 0 <= i < |w.distanceBased| && w.distanceBased[i].key.id == id;
      assert w.distanceBased[i] in w.distanceBased;
    }
  }

  // ---------------------------------------------------------------- every run

  /** At most one session, in one of the lists, has a given id. */
  lemma SameIdSameKey(sessions: seq<Session>, s: Session)
    requires Ordered(sessions) && s in sessions
    ensures forall u :: u in sessions && u.key.id == s.key.id ==> u == s
  {
    var i :| 0 <= i < |sessions| && sessions[i] == s;
  }

  lemma DistanceAdded(d: map<nat, Options>, sessions: seq<Session>, s: Session, after: seq<Session>)
    requires Tracks(d, sessions) && forall u :: u in sessions && u.key.id == s.key.id ==> u.key == s.key
    requires forall u :: u in after <==> u == s || (u in sessions && u.key != s.key)
    ensures Tracks(d[s.key.id := s.options], after)
  {
    assert s in after;
    forall id | id in d && id != s.key.id
      ensures HasId(after, id)
    {
      assert HasId(sessions, id);
      var u :| u in sessions && u.key.id == id;
      assert u in after;
    }
  }

  lemma DistanceStartServes(d: map<nat, Options>, sessions: seq<Session>, s: Session)
    requires Ordered(sessions) && Tracks(d, sessions)
    requires forall u :: u in sessions && u.key.id == s.key.id ==> u.key == s.key
    ensures Tracks(d[s.key.id := s.options], Put(sessions, s))
  {
    PutKeeps(sessions, s);
    DistanceAdded(d, sessions, s, Put(sessions, s));
  }

  lemma DistanceStopServes(d: map<nat, Options>, sessions: seq<Session>, key: Key)
    requires Ordered(sessions) && Tracks(d, sessions) && Live(sessions, key)
    ensures Tracks(d - {key.id}, Remove(sessions, key))
  {
    RemoveKeeps(sessions, key);
    SameIdSameKey(sessions, Find(sessions, key));
    forall id | id in d && id != key.id
      ensures HasId(Remove(sessions, key), id)
    {
      assert HasId(sessions, id);
      var u :| u in sessions && u.key.id == id;
      assert u in Remove(sessions, key);
    }
  }

  /** Sized, ordered and apart from the other list. */
  ghost predicate Fits(sessions: seq<Session>, others: seq<Session>) {
    Ordered(sessions) && Sized(sessions) && Apart(sessions, others)
  }

  lemma PutFits(sessions: seq<Session>, others: seq<Session>, s: Session)
    requires Fits(sessions, others) && s.options.size > 0
    requires forall u :: u in sessions && u.key.id == s.key.id ==> u.key == s.key
    requires forall u :: u in others ==> u.key.id != s.key.id
    ensures Fits(Put(sessions, s), others)
  {
    PutKeeps(sessions, s);
  }

  lemma RemoveFits(sessions: seq<Session>, others: seq<Session>, key: Key)
    requires Fits(sessions, others)
    ensures Fits(Remove(sessions, key), others)
  {
    RemoveKeeps(sessions, key);
  }

  lemma ApartFlips(a: seq<Session>, b: seq<Session>)
    requires Apart(a, b)
    ensures Apart(b, a)
  {}

  /** A live session is alone with its id, in both lists. */
  lemma LiveIsAlone(sessions: seq<Session>, others: seq<Session>, key: Key)
    requires Ordered(sessions) && Apart(sessions, others) && Live(sessions, key)
    ensures forall u :: u in sessions && u.key.id == key.id ==> u.key == key
    ensures forall u :: u in others ==> u.key.id != key.id
    ensures !Live(others, key)
  {
    SameIdSameKey(sessions, Find(sessions, key));
    assert forall i :: 0 <= i < |others| ==> others[i] in others;
  }

  lemma StartKeepsInv(supported: bool, w: World, e: Event)
    requires Inv(supported, w) && e.Start? && Enabled(w, e)
    ensures Inv(supported, Step(supported, w, e))
  {
    if e.hasCallback && e.options.size > 0 {
      var o := AtLeastMinimum(e.options);
      ApartFlips(w.timeBased, w.distanceBased);
      if o.distance > 0 && supported {
        var s := Session(e.key, o);
        PutFits(w.distanceBased, w.timeBased, s);
        DistanceStartServes(w.engine.distance, w.distanceBased, s);
        ApartFlips(Put(w.distanceBased, s), w.timeBased);
      } else {
        var s := Session(e.key, FallBack(o));
        PutFits(w.timeBased, w.distanceBased, s);
        JoinServes(w.engine, w.timeBased, s);
      }
    }
  }

  /** A session leaves one list for the other. */
  lemma MoveFits(from: seq<Session>, to: seq<Session>, s: Session)
    requires Fits(from, to) && Fits(to, from) && Live(from, s.key) && s.options.size > 0
    ensures Fits(Remove(from, s.key), Put(to, s)) && Fits(Put(to, s), Remove(from, s.key))
    ensures forall u :: u in to ==> u.key.id != s.key.id
  {
    var left := Remove(from, s.key);
    LiveIsAlone(from, to, s.key);
    RemoveFits(from, to, s.key);
    assert forall u :: u in left ==> u.key.id != s.key.id by {
      RemoveKeeps(from, s.key);
    }
    ApartFlips(left, to);
    PutFits(to, left, s);
    ApartFlips(Put(to, s), left);
  }

  lemma SwitchToDistance(w: World, s: Session)
    requires Inv(true, w) && Live(w.timeBased, s.key) && s.options.size > 0
    ensures var e := Obey(w.engine, Leave(w.timeBased, s.key));
            Inv(true, World(Remove(w.timeBased, s.key), Put(w.distanceBased, s),
                            e.(distance := e.distance[s.key.id := s.options]), w.answers))
  {
    var e := Obey(w.engine, Leave(w.timeBased, s.key));
    ApartFlips(w.timeBased, w.distanceBased);
    MoveFits(w.timeBased, w.distanceBased, s);
    assert TimeServed(e, Remove(w.timeBased, s.key)) by {
      LeaveServes(w.engine, w.timeBased, s.key);
    }
    assert Tracks(e.distance[s.key.id := s.options], Put(w.distanceBased, s)) by {
      DistanceStartServes(w.engine.distance, w.distanceBased, s);
    }
  }

  lemma SwitchToTime(w: World, s: Session)
    requires Inv(true, w) && Live(w.distanceBased, s.key) && s.options.size > 0
    ensures var e := Obey(w.engine, Join(w.timeBased, s.options));
            Inv(true, World(Put(w.timeBased, s), Remove(w.distanceBased, s.key),
                            e.(distance := e.distance - {s.key.id}), w.answers))
  {
    ApartFlips(w.timeBased, w.distanceBased);
    MoveFits(w.distanceBased, w.timeBased, s);
    DistanceStopServes(w.engine.distance, w.distanceBased, s.key);
    JoinServes(w.engine, w.timeBased, s);
  }

  lemma UpdateTimeInPlace(supported: bool, w: World, s: Session, c: Command)
    requires Inv(supported, w) && Live(w.timeBased, s.key) && s.options.size > 0
    requires TimeServed(Obey(w.engine, c), Put(w.timeBased, s))
    ensures Inv(supported, w.(timeBased := Put(w.timeBased, s), engine := Obey(w.engine, c)))
  {
    LiveIsAlone(w.timeBased, w.distanceBased, s.key);
    PutFits(w.timeBased, w.distanceBased, s);
  }

  lemma UpdateDistanceInPlace(w: World, s: Session)
    requires Inv(true, w) && Live(w.distanceBased, s.key) && s.options.size > 0
    ensures Inv(true, w.(distanceBased := Put(w.distanceBased, s),
                         engine := w.engine.(distance := w.engine.distance[s.key.id := s.options])))
  {
    ApartFlips(w.timeBased, w.distanceBased);
    LiveIsAlone(w.distanceBased, w.timeBased, s.key);
    PutFits(w.distanceBased, w.timeBased, s);
    ApartFlips(Put(w.distanceBased, s), w.timeBased);
    DistanceStartServes(w.engine.distance, w.distanceBased, s);
  }

  lemma UpdateTimeKeepsInv(supported: bool, w: World, e: Event)
    requires Inv(supported, w) && e.Update? && e.options.size > 0 && Live(w.timeBased, e.key)
    requires supported || e.options.distance == 0
    ensures Inv(supported, Step(supported, w, e))
  {
    var s := Session(e.key, AtLeastMinimum(FallBack(e.options)));
    if e.options.distance > 0 {
      SwitchToDistance(w, s);
    } else {
      LiveIsAlone(w.timeBased, w.distanceBased, s.key);
      AmendServes(w.engine, w.timeBased, s);
      UpdateTimeInPlace(supported, w, s, Amend(w.timeBased, s.key, s.options));
    }
  }

  lemma UpdateDistanceIs(w: World, e: Event)
    requires e.Update? && e.options.size > 0 && Live(w.distanceBased, e.key) && !Live(w.timeBased, e.key)
    ensures var s, engine := Session(e.key, AtLeastMinimum(FallBack(e.options))), w.engine;
            Step(true, w, e) == Replied(
              if e.options.distance == 0 then
                World(Put(w.timeBased, s), Remove(w.distanceBased, e.key),
                      Obey(engine, Join(w.timeBased, s.options)).(distance := engine.distance - {e.key.id}), w.answers)
              else
                w.(distanceBased := Put(w.distanceBased, s),
                   engine := engine.(distance := engine.distance[e.key.id := s.options])), e.key, Success)
  {
    var s := Session(e.key, AtLeastMinimum(FallBack(e.options)));
    assert (w.engine.distance - {e.key.id})[e.key.id := s.options] == w.engine.distance[e.key.id := s.options];
  }

  lemma UpdateDistanceKeepsInv(supported: bool, w: World, e: Event)
    requires Inv(supported, w) && e.Update? && e.options.size > 0 && Live(w.distanceBased, e.key)
    ensures Inv(supported, Step(supported, w, e))
  {
    var s := Session(e.key, AtLeastMinimum(FallBack(e.options)));
    assert !Live(w.timeBased, e.key) by {
      ApartFlips(w.timeBased, w.distanceBased);
      LiveIsAlone(w.distanceBased, w.timeBased, e.key);
    }
    UpdateDistanceIs(w, e);
    if e.options.distance == 0 {
      SwitchToTime(w, s);
    } else {
      UpdateDistanceInPlace(w, s);
    }
  }

  lemma StopKeepsInv(supported: bool, w: World, e: Event)
    requires Inv(supported, w) && e.Stop?
    ensures Inv(supported, Step(supported, w, e))
  {
    if Live(w.timeBased, e.key) {
      TimeStopKeepsInv(supported, w, e.key);
    } else if Live(w.distanceBased, e.key) {
      DistanceStopKeepsInv(supported, w, e.key);
    }
  }

  lemma TimeStopKeepsInv(supported: bool, w: World, key: Key)
    requires Inv(supported, w) && Live(w.timeBased, key)
    ensures Inv(supported, w.(timeBased := Remove(w.timeBased, key), engine := Obey(w.engine, Leave(w.timeBased, key))))
  {
    LeaveServes(w.engine, w.timeBased, key);
    RemoveFits(w.timeBased, w.distanceBased, key);
  }

  lemma DistanceStopKeepsInv(supported: bool, w: World, key: Key)
    requires Inv(supported, w) && Live(w.distanceBased, key)
    ensures Inv(supported, w.(distanceBased := Remove(w.distanceBased, key),
                              engine := w.engine.(distance := w.engine.distance - {key.id})))
  {
    ApartFlips(w.timeBased, w.distanceBased);
    RemoveFits(w.distanceBased, w.timeBased, key);
    ApartFlips(Remove(w.distanceBased, key), w.timeBased);
    DistanceStopServes(w.engine.distance, w.distanceBased, key);
  }

  lemma UpdateKeepsInv(supported: bool, w: World, e: Event)
    requires Inv(supported, w) && e.Update? && !Unserved(supported, w, e)
    ensures Inv(supported, Step(supported, w, e))
  {
    if e.options.size > 0 && Live(w.timeBased, e.key) {
      UpdateTimeKeepsInv(supported, w, e);
    } else if e.options.size > 0 && Live(w.distanceBased, e.key) {
      UpdateDistanceKeepsInv(supported, w, e);
    } else {
      assert Step(supported, w, e) == w.(answers := Step(supported, w, e).answers);
    }
  }

  /** Every event but one keeps the engine serving all sessions. */
  lemma StepKeepsInv(supported: bool, w: World, e: Event)
    requires Inv(supported, w) && !Unserved(supported, w, e)
    ensures Inv(supported, Step(supported, w, e))
  {
    if Enabled(w, e) {
      match e
      case Start(_, _, _) => StartKeepsInv(supported, w, e);
      case Update(_, _) => UpdateKeepsInv(supported, w, e);
      case Stop(_) => StopKeepsInv(supported, w, e);
      case EngineUp => EngineUpServes(w);
    }
  }

  /** In every run the engine runs exactly when a time-based session is live and then at least as often as any of
      them asks for, and it has exactly the live distance-based sessions. */
  lemma {:induction false} RunsKeepInv(supported: bool, es: seq<Event>)
    requires forall k :: 0 <= k < |es| ==> !Unserved(supported, Run(supported, es[..k]), es[k])
    ensures Inv(supported, Run(supported, es))
  {
    if es != [] {
      var init := es[..|es| - 1];
      assert forall k :: 0 <= k < |init| ==> init[..k] == es[..k];
      assert !Unserved(supported, Run(supported, es[..|es| - 1]), es[|es| - 1]);
      RunsKeepInv(supported, init);
      StepKeepsInv(supported, Run(supported, init), es[|es| - 1]);
    }
  }

  /** The update left over: the session stays time-based although the engine was told it had left.  This says when no
      other session keeps the engine running, often enough for the new interval. */
  predicate Starves(w: World, key: Key, o: Options)
    requires Live(w.timeBased, key)
  {
    var n, was := |w.timeBased|, Find(w.timeBased, key).options;
    var m, p := Smallest(w.timeBased, n, Some(key)), Power(w.timeBased, n, Some(key));
    n == 1 || AtLeastMinimum(o).interval <
                if was.interval < m.interval || was.power < p then m.interval else w.engine.options.interval
  }

  lemma UnservedUpdateServesExactly(w: World, e: Event)
    requires Shaped(false, w) && TimeServed(w.engine, w.timeBased) && Unserved(false, w, e)
    ensures var w' := Step(false, w, e); TimeServed(w'.engine, w'.timeBased) <==> !Starves(w, e.key, e.options)
  {
    var w', s := Step(false, w, e), Session(e.key, AtLeastMinimum(FallBack(e.options)));
    SameIdSameKey(w.timeBased, Find(w.timeBased, e.key));
    LeaveServes(w.engine, w.timeBased, e.key);
    RemoveKeeps(w.timeBased, e.key);
    PutKeeps(Remove(w.timeBased, e.key), s);
    assert s in w'.timeBased;
  }

  /** A lone session is started and then told a minimum distance: it stays live, and the engine stops. */
  lemma LoneSessionLosesEngine(key: Key, before: Options, after: Options)
    requires before.size > 0 && after.size > 0 && after.distance > 0
    ensures var w := Run(false, [Start(key, before, true), Update(key, after)]);
            Live(w.timeBased, key) && !w.engine.running
  {
    var e, f := Start(key, before, true), Update(key, after);
    var o, s := FallBack(AtLeastMinimum(before)), Session(key, AtLeastMinimum(FallBack(after)));
    assert [e, f][..1] == [e] && [e][..0] == [];
    var w1 := Step(false, Initial, e);
    assert w1.timeBased == [Session(key, o)] && w1.timeBased[0].key == key;
    assert Remove([Session(key, o)], key) == [] by {
      assert [Session(key, o)][1..] == [];
    }
    assert Run(false, [e]) == w1;
    assert Step(false, w1, f).timeBased == [s];
    assert [s][0].key == key;
  }

  // ---------------------------------------------------------------- the answers

  /** What the source refuses without a word: a start without a callback or without options. */
  predicate Refused(e: Event) {
    e.Start? && (!e.hasCallback || e.options.size == 0)
  }

  predicate Known(w: World, key: Key) {
    Live(w.timeBased, key) || Live(w.distanceBased, key)
  }

  /** The answer a command is due. */
  function Due(w: World, e: Event): seq<Answer> {
    if e.EngineUp? || Refused(e) then []
    else if !e.Start? && !Known(w, e.key) then [Answer(e.key, IdUnknown)]
    else if e.Update? && e.options.size == 0 then [Answer(e.key, InvalidParameter)]
    else [Answer(e.key, Success)]
  }

  function AllDue(supported: bool, es: seq<Event>): seq<Answer> {
    if es == [] then []
    else
      var w, e := Run(supported, es[..|es| - 1]), es[|es| - 1];
      AllDue(supported, es[..|es| - 1]) + if Enabled(w, e) then Due(w, e) else []
  }

  /** In every run each command that is not refused is answered once, in order, whether by the engine or at once. */
  lemma {:induction false} EveryCommandAnsweredOnce(supported: bool, es: seq<Event>)
    ensures Run(supported, es).answers == AllDue(supported, es)
  {
    if es != [] {
      var w, e := Run(supported, es[..|es| - 1]), es[|es| - 1];
      EveryCommandAnsweredOnce(supported, es[..|es| - 1]);
      if Enabled(w, e) {
        StepAnswers(supported, w, e);
      }
    }
  }

  lemma StepAnswers(supported: bool, w: World, e: Event)
    requires Enabled(w, e)
    ensures Step(supported, w, e).answers == w.answers + Due(w, e)
  {}

  function Tally(answers: seq<Answer>, key: Key): nat {
    if answers == [] then 0
    else Tally(answers[..|answers| - 1], key) + if answers[|answers| - 1].key == key then 1 else 0
  }

  /** Whether a command is given for a session, and not refused. */
  predicate Commands(w: World, e: Event, key: Key) {
    !e.EngineUp? && e.key == key && !Refused(e) && Enabled(w, e)
  }

  function CommandCount(supported: bool, es: seq<Event>, key: Key): nat {
    if es == [] then 0
    else
      CommandCount(supported, es[..|es| - 1], key) +
      if Commands(Run(supported, es[..|es| - 1]), es[|es| - 1], key) then 1 else 0
  }

  lemma TallySnoc(answers: seq<Answer>, a: Answer, key: Key)
    ensures Tally(answers + [a], key) == Tally(answers, key) + if a.key == key then 1 else 0
  {
    assert (answers + [a])[..|answers|] == answers;
  }

  lemma StepTally(supported: bool, w: World, e: Event, key: Key)
    ensures Tally(Step(supported, w, e).answers, key) == Tally(w.answers, key) + if Commands(w, e, key) then 1 else 0
  {
    if Enabled(w, e) {
      StepAnswers(supported, w, e);
      if Due(w, e) != [] {
        TallySnoc(w.answers, Due(w, e)[0], key);
      }
    }
  }

  /** In every run each session has been sent exactly as many answers as commands were given for it. */
  lemma {:induction false} AnswersMatchCommands(supported: bool, es: seq<Event>, key: Key)
    ensures Tally(Run(supported, es).answers, key) == CommandCount(supported, es, key)
  {
    if es != [] {
      AnswersMatchCommands(supported, es[..|es| - 1], key);
      StepTally(supported, Run(supported, es[..|es| - 1]), es[|es| - 1], key);
    }
  }

  // ---------------------------------------------------------------- how far the engine is from the least it needs

  /** The engine is no faster than some session asks for. */
  ghost predicate Sharp(e: Engine, sessions: seq<Session>) {
    sessions != [] ==> exists s :: s in sessions && s.options.interval == e.options.interval
  }

  lemma JoinStaysSharp(e: Engine, sessions: seq<Session>, s: Session)
    requires Ordered(sessions) && Sized(sessions) && TimeServed(e, sessions) && Sharp(e, sessions)
    requires forall u :: u in sessions ==> u.key.id != s.key.id
    ensures Sharp(Obey(e, Join(sessions, s.options)), Put(sessions, s))
  {
    PutKeeps(sessions, s);
    SmallestOfOthers(sessions, None);
    if sessions != [] {
      assert sessions[0] in sessions;
      var u :| u in sessions && u.options.interval == e.options.interval;
      assert u in Put(sessions, s) && s in Put(sessions, s);
    }
  }

  lemma LeaveStaysSharp(e: Engine, sessions: seq<Session>, key: Key)
    requires Ordered(sessions) && Sized(sessions) && TimeServed(e, sessions) && Sharp(e, sessions)
    requires Live(sessions, key)
    ensures Sharp(Obey(e, Leave(sessions, key)), Remove(sessions, key))
  {
    RemoveKeeps(sessions, key);
    SmallestOfOthers(sessions, Some(key));
    if |sessions| > 1 {
      var u := AnotherSession(sessions, key);
      var was, m := Find(sessions, key), Smallest(sessions, |sessions|, Some(key));
      SameIdSameKey(sessions, was);
      var t :| t in sessions && t.key != key && t.options == m;
      assert t in Remove(sessions, key);
    }
  }

  /** New options that move the only session at the engine's interval to a longer one, yet ask for no more than the
      others' smallest interval and power mode. */
  predicate Relaxes(e: Engine, sessions: seq<Session>, key: Key, o: Options) {
    var n := |sessions|;
    var m, p := Smallest(sessions, n, Some(key)), Power(sessions, n, Some(key));
    n > 1 && e.options.interval < m.interval <= o.interval && p <= o.power
  }

  /** A session replaced by another with its key, beside the one with the least interval of the others. */
  ghost predicate Replaces(sessions: seq<Session>, was: Session, s: Session, t: Session) {
    was in sessions && was.key == s.key && t in sessions && t.key != s.key &&
    (forall u :: u in sessions && u.key == s.key ==> u == was) &&
    forall u :: u in sessions && u.key != s.key ==> t.options.interval <= u.options.interval
  }

  /** An update leaves the engine faster than needed exactly if it relaxes the session so. */
  lemma AmendStaysSharpExactly(e: Engine, sessions: seq<Session>, s: Session)
    requires Ordered(sessions) && Sized(sessions) && TimeServed(e, sessions) && Sharp(e, sessions)
    requires Live(sessions, s.key) && forall u :: u in sessions && u.key.id == s.key.id ==> u.key == s.key
    ensures Sharp(Obey(e, Amend(sessions, s.key, s.options)), Put(sessions, s)) <==>
            !Relaxes(e, sessions, s.key, s.options)
  {
    if |sessions| > 1 {
      AmendAmongOthers(e, sessions, s);
    }
  }

  lemma AmendAmongOthers(e: Engine, sessions: seq<Session>, s: Session)
    requires Ordered(sessions) && Sized(sessions) && TimeServed(e, sessions) && Sharp(e, sessions) && |sessions| > 1
    requires Live(sessions, s.key) && forall u :: u in sessions && u.key.id == s.key.id ==> u.key == s.key
    ensures Sharp(Obey(e, Amend(sessions, s.key, s.options)), Put(sessions, s)) <==>
            !Relaxes(e, sessions, s.key, s.options)
  {
    var t := LeastOther(sessions, s);
    PutKeeps(sessions, s);
  }

  lemma LeastOther(sessions: seq<Session>, s: Session) returns (t: Session)
    requires Ordered(sessions) && Sized(sessions) && |sessions| > 1 && Live(sessions, s.key)
    ensures Replaces(sessions, Find(sessions, s.key), s, t)
    ensures t.options == Smallest(sessions, |sessions|, Some(s.key))
  {
    SmallestOfOthers(sessions, Some(s.key));
    SameIdSameKey(sessions, Find(sessions, s.key));
    var u := AnotherSession(sessions, s.key);
    t :| t in sessions && t.key != s.key && t.options == Smallest(sessions, |sessions|, Some(s.key));
  }

  /** The update after which the engine is faster than any session needs. */
  predicate Slackens(w: World, e: Event) {
    e.Update? && Live(w.timeBased, e.key) && e.options.size > 0 && e.options.distance == 0 &&
    Relaxes(w.engine, w.timeBased, e.key, AtLeastMinimum(FallBack(e.options)))
  }

  lemma UpdateStaysSharpExactly(supported: bool, w: World, e: Event)
    requires Inv(supported, w) && Sharp(w.engine, w.timeBased) && e.Update? && Live(w.timeBased, e.key)
    requires e.options.size > 0 && (supported || e.options.distance == 0)
    ensures var w' := Step(supported, w, e); Sharp(w'.engine, w'.timeBased) <==> !Slackens(w, e)
  {
    var s := Session(e.key, AtLeastMinimum(FallBack(e.options)));
    LiveIsAlone(w.timeBased, w.distanceBased, e.key);
    if e.options.distance > 0 {
      LeaveStaysSharp(w.engine, w.timeBased, e.key);
    } else {
      AmendStaysSharpExactly(w.engine, w.timeBased, s);
    }
  }

  /** One kind of update apart, every event leaves the engine exactly as fast as the live sessions need it. */
  lemma StepStaysSharpExactly(supported: bool, w: World, e: Event)
    requires Inv(supported, w) && Sharp(w.engine, w.timeBased) && !Unserved(supported, w, e)
    ensures var w' := Step(supported, w, e); Sharp(w'.engine, w'.timeBased) <==> !Slackens(w, e)
  {
    if Enabled(w, e) {
      match e
      case Start(_, _, _) => JoinStaysSharp(w.engine, w.timeBased, Session(e.key, FallBack(AtLeastMinimum(e.options))));
      case Update(key, options) =>
        if options.size > 0 {
          if Live(w.timeBased, key) {
            UpdateStaysSharpExactly(supported, w, e);
          } else if Live(w.distanceBased, key) {
            ApartFlips(w.timeBased, w.distanceBased);
            LiveIsAlone(w.distanceBased, w.timeBased, key);
            UpdateDistanceIs(w, e);
            JoinStaysSharp(w.engine, w.timeBased, Session(key, AtLeastMinimum(FallBack(options))));
          }
        }
      case Stop(key) =>
        if Live(w.timeBased, key) {
          LeaveStaysSharp(w.engine, w.timeBased, key);
        }
      case EngineUp => EngineUpIsSharp(w);
    }
  }

  lemma EngineUpIsSharp(w: World)
    requires Sized(w.timeBased)
    ensures Sharp(OnEngineUp(w).engine, w.timeBased)
  {
    SmallestOfOthers(w.timeBased, None);
    if w.timeBased != [] {
      assert w.timeBased[0] in w.timeBased;
    }
  }

  /** The engine serves the time-based sessions and is no faster than it has to be. */
  ghost predicate Fit(e: Engine, sessions: seq<Session>) {
    TimeServed(e, sessions) && Sharp(e, sessions)
  }

  lemma UnservedStaysFitExactly(w: World, e: Event)
    requires Shaped(false, w) && Fit(w.engine, w.timeBased) && Unserved(false, w, e)
    ensures var w' := Step(false, w, e); Fit(w'.engine, w'.timeBased) <==> !Starves(w, e.key, e.options)
  {
    var s := Session(e.key, AtLeastMinimum(FallBack(e.options)));
    UnservedUpdateServesExactly(w, e);
    LeaveStaysSharp(w.engine, w.timeBased, e.key);
    RemoveKeeps(w.timeBased, e.key);
    PutKeeps(Remove(w.timeBased, e.key), s);
  }

  /** The same but for the engine's distance-based sessions, on which the rest does not depend. */
  predicate Matches(w: World, u: World) {
    w.timeBased == u.timeBased && w.distanceBased == u.distanceBased && w.engine.running == u.engine.running &&
    w.engine.options == u.engine.options
  }

  lemma UpdateMatches(supported: bool, w: World, u: World, key: Key, options: Options)
    requires Matches(w, u) && !(Live(w.timeBased, key) && Live(w.distanceBased, key))
    ensures Matches(OnUpdate(supported, w, key, options), OnUpdate(supported, u, key, options))
  {
    if !Live(w.timeBased, key) && options.distance == 0 {
      LandMatches(supported, w, u, key, options);
    }
  }

  lemma LandMatches(supported: bool, w: World, u: World, key: Key, options: Options)
    requires Matches(w, u) && !Live(w.timeBased, key) && options.distance == 0
    ensures Matches(OnUpdate(supported, w, key, options), OnUpdate(supported, u, key, options))
  {}

  lemma StepMatches(supported: bool, w: World, u: World, e: Event)
    requires Matches(w, u) && Ordered(w.timeBased) && Apart(w.timeBased, w.distanceBased)
    ensures Matches(Step(supported, w, e), Step(supported, u, e))
  {
    match e
    case Update(key, options) =>
      if Live(w.timeBased, key) {
        LiveIsAlone(w.timeBased, w.distanceBased, key);
      }
      UpdateMatches(supported, w, u, key, options);
    case _ => OtherMatches(supported, w, u, e);
  }

  lemma OtherMatches(supported: bool, w: World, u: World, e: Event)
    requires Matches(w, u) && !e.Update?
    ensures Matches(Step(supported, w, e), Step(supported, u, e))
  {
    if e.Start? && Enabled(w, e) {
      StartMatches(supported, w, u, e);
    }
  }

  lemma StartMatches(supported: bool, w: World, u: World, e: Event)
    requires Matches(w, u) && e.Start?
    ensures Matches(OnStart(supported, w, e.key, e.options, e.hasCallback),
                    OnStart(supported, u, e.key, e.options, e.hasCallback))
  {}

  lemma ServedStaysFitExactly(supported: bool, w: World, e: Event)
    requires Shaped(supported, w) && Fit(w.engine, w.timeBased) && !Unserved(supported, w, e)
    ensures var w' := Step(supported, w, e);
            Shaped(supported, w') && (Fit(w'.engine, w'.timeBased) <==> !Slackens(w, e))
  {
    var up := w.(engine := w.engine.(distance := OnEngineUp(w).engine.distance));
    EngineUpServes(w);
    StepKeepsInv(supported, up, e);
    StepStaysSharpExactly(supported, up, e);
    StepMatches(supported, w, up, e);
  }

  /** The events after which the engine is too slow or too fast. */
  predicate Misfits(supported: bool, w: World, e: Event) {
    Slackens(w, e) || (Unserved(supported, w, e) && Starves(w, e.key, e.options))
  }

  ghost predicate AlwaysFit(supported: bool, es: seq<Event>) {
    var w := Run(supported, es);
    Fit(w.engine, w.timeBased) && (es != [] ==> AlwaysFit(supported, es[..|es| - 1]))
  }

  predicate NeverMisfits(supported: bool, es: seq<Event>) {
    es != [] ==>
      NeverMisfits(supported, es[..|es| - 1]) && !Misfits(supported, Run(supported, es[..|es| - 1]), es[|es| - 1])
  }

  /** The lists stay in shape even where the engine fails some session. */
  lemma StepKeepsShape(supported: bool, w: World, e: Event)
    requires Shaped(supported, w)
    ensures Shaped(supported, Step(supported, w, e))
  {
    if Unserved(supported, w, e) {
      UnservedKeepsShape(w, e);
    } else {
      var up := OnEngineUp(w);
      EngineUpServes(w);
      StepKeepsInv(supported, up, e);
      EngineApart(supported, w, up.engine, e);
    }
  }

  lemma UnservedKeepsShape(w: World, e: Event)
    requires Shaped(false, w) && Unserved(false, w, e)
    ensures Shaped(false, Step(false, w, e))
  {
    var s := Session(e.key, AtLeastMinimum(FallBack(e.options)));
    LiveIsAlone(w.timeBased, w.distanceBased, e.key);
    RemoveKeeps(w.timeBased, e.key);
    RemoveFits(w.timeBased, w.distanceBased, e.key);
    PutFits(Remove(w.timeBased, e.key), w.distanceBased, s);
  }

  lemma EngineApart(supported: bool, w: World, engine: Engine, e: Event)
    ensures var w', u' := Step(supported, w, e), Step(supported, w.(engine := engine), e);
            w'.timeBased == u'.timeBased && w'.distanceBased == u'.distanceBased
  {}

  lemma {:induction false} RunsKeepShape(supported: bool, es: seq<Event>)
    ensures Shaped(supported, Run(supported, es))
  {
    if es != [] {
      RunsKeepShape(supported, es[..|es| - 1]);
      StepKeepsShape(supported, Run(supported, es[..|es| - 1]), es[|es| - 1]);
    }
  }

  /** In every run the engine runs at the smallest live interval all along exactly if no event in it is such a one. */
  lemma {:induction false} RunsStayFitExactly(supported: bool, es: seq<Event>)
    ensures AlwaysFit(supported, es) <==> NeverMisfits(supported, es)
  {
    if es != [] {
      var init, e := es[..|es| - 1], es[|es| - 1];
      var w := Run(supported, init);
      RunsStayFitExactly(supported, init);
      RunsKeepShape(supported, init);
      if Fit(w.engine, w.timeBased) {
        if Unserved(supported, w, e) {
          UnservedStaysFitExactly(w, e);
        } else {
          ServedStaysFitExactly(supported, w, e);
        }
      }
    }
  }

  // ---------------------------------------------------------------- the power mode

  /** A session that states no mode is content with any; one that does wants a valid one, at least as strong. */
  predicate Content(q: PowerMode, p: PowerMode) {
    p == POWER_MODE_INVALID || POWER_MODE_INVALID < q <= p
  }

  /** The engine runs in a power mode that contents every session. */
  ghost predicate PowerServed(q: PowerMode, sessions: seq<Session>) {
    forall s :: s in sessions ==> Content(q, s.options.power)
  }

  /** The scan ends with the mode of a session that is not skipped, if there is one. */
  lemma PowerOfOthers(sessions: seq<Session>, skip: Option<Key>)
    ensures var p := Power(sessions, |sessions|, skip);
            p > 0 ==> exists s :: s in sessions && Some(s.key) != skip && p == s.options.power
  {
    var p := Power(sessions, |sessions|, skip);
    PowerIsStated(sessions, |sessions|, skip);
    if p > 0 {
      var i :| 0 <= i < |sessions| && Some(sessions[i].key) != skip && p == sessions[i].options.power;
      assert sessions[i] in sessions;
    }
  }

  lemma {:induction false} PowerIsStated(sessions: seq<Session>, k: nat, skip: Option<Key>)
    requires k <= |sessions|
    ensures var p := Power(sessions, k, skip);
            p > 0 ==> exists i :: 0 <= i < k && Some(sessions[i].key) != skip && p == sessions[i].options.power
  {
    if k > 0 {
      PowerIsStated(sessions, k - 1, skip);
    }
  }

  /** Whether some session but one states a mode that `q` does not meet. */
  ghost predicate SomeUnmet(sessions: seq<Session>, skip: Option<Key>, q: PowerMode) {
    exists s :: s in sessions && Some(s.key) != skip && !Content(q, s.options.power)
  }

  /** When new options leave some session without the mode it states: they state a mode themselves and it is not sent;
      or they take over the engine's mode although they state none, or a weaker one than a session the scan passed over;
      or the mode of the session with the smallest interval is taken over with its options, and does not do. */
  ghost predicate LosesMode(e: Engine, sessions: seq<Session>, skip: Option<Key>, o: Options) {
    var n := |sessions|;
    var m, p := Smallest(sessions, n, skip), Power(sessions, n, skip);
    if m.interval <= o.interval && p <= o.power then !Content(e.options.power, o.power)
    else if o.power < p then o.power == POWER_MODE_INVALID || SomeUnmet(sessions, skip, o.power)
    else !Content(m.power, o.power) || SomeUnmet(sessions, skip, m.power)
  }

  /** A start keeps all sessions content exactly if it is the first or does not lose a mode. */
  lemma JoinKeepsPowerExactly(e: Engine, sessions: seq<Session>, s: Session)
    requires Ordered(sessions) && PowerServed(e.options.power, sessions)
    requires forall u :: u in sessions ==> u.key.id != s.key.id
    ensures PowerServed(Obey(e, Join(sessions, s.options)).options.power, Put(sessions, s)) <==>
            sessions == [] || !LosesMode(e, sessions, None, s.options)
  {
    PutKeeps(sessions, s);
    PowerOfOthers(sessions, None);
    assert s in Put(sessions, s);
    forall u | u in sessions
      ensures u in Put(sessions, s)
    {}
  }

  /** An update does exactly if it changes neither interval nor mode, has no others, or does not lose a mode. */
  lemma AmendKeepsPowerExactly(e: Engine, sessions: seq<Session>, s: Session)
    requires Ordered(sessions) && PowerServed(e.options.power, sessions)
    requires Live(sessions, s.key) && forall u :: u in sessions && u.key.id == s.key.id ==> u.key == s.key
    ensures var was := Find(sessions, s.key).options;
            PowerServed(Obey(e, Amend(sessions, s.key, s.options)).options.power, Put(sessions, s)) <==>
            (was.interval == s.options.interval && was.power == s.options.power) || |sessions| == 1 ||
            !LosesMode(e, sessions, Some(s.key), s.options)
  {
    var was := Find(sessions, s.key).options;
    if (was.interval != s.options.interval || was.power != s.options.power) && |sessions| > 1 {
      PowerReplaced(Obey(e, Amend(sessions, s.key, s.options)).options.power, sessions, s);
      PowerOfOthers(sessions, Some(s.key));
    }
  }

  lemma PowerReplaced(q: PowerMode, sessions: seq<Session>, s: Session)
    requires Ordered(sessions) && forall u :: u in sessions && u.key.id == s.key.id ==> u.key == s.key
    ensures PowerServed(q, Put(sessions, s)) <==> Content(q, s.options.power) && !SomeUnmet(sessions, Some(s.key), q)
  {
    PutKeeps(sessions, s);
    assert s in Put(sessions, s) && forall u :: u in sessions && u.key != s.key ==> u in Put(sessions, s);
  }

  /** A session with others live has a shorter interval or a smaller mode than the scans of the others find. */
  predicate RestartsFor(sessions: seq<Session>, key: Key)
    requires Live(sessions, key)
  {
    var n, was := |sessions|, Find(sessions, key).options;
    n > 1 && (was.interval < Smallest(sessions, n, Some(key)).interval || was.power < Power(sessions, n, Some(key)))
  }

  /** When a stop restarts the engine with a mode that does not do for the others. */
  ghost predicate LeavesUnmet(sessions: seq<Session>, key: Key)
    requires Live(sessions, key)
  {
    RestartsFor(sessions, key) && SomeUnmet(sessions, Some(key), Power(sessions, |sessions|, Some(key)))
  }

  lemma LeaveKeepsPowerExactly(e: Engine, sessions: seq<Session>, key: Key)
    requires Ordered(sessions) && PowerServed(e.options.power, sessions) && Live(sessions, key)
    ensures PowerServed(Obey(e, Leave(sessions, key)).options.power, Remove(sessions, key)) <==>
            !LeavesUnmet(sessions, key)
  {
    RemoveKeeps(sessions, key);
    assert forall u :: u in sessions && u.key != key ==> u in Remove(sessions, key);
  }

  // ---------------------------------------------------------------- when every session states a mode

  /** A restart for a shorter interval takes over the power mode of the session that had the shortest one so far,
      although another one asked for a stronger mode. */
  predicate Weakens(m: Options, p: PowerMode, o: Options) {
    o.interval < m.interval && o.power >= p && m.power > p
  }

  lemma PowerIsLeastOfOthers(sessions: seq<Session>, skip: Option<Key>)
    requires Powered(sessions)
    ensures var p := Power(sessions, |sessions|, skip);
            forall s :: s in sessions && Some(s.key) != skip ==> 0 < p <= s.options.power
  {
    PowerIsLeast(sessions, |sessions|, skip);
  }

  /** Then the only way to lose one is such a restart, and a stop never does. */
  lemma StatedModesLostExactly(e: Engine, sessions: seq<Session>, skip: Option<Key>, o: Options)
    requires Sized(sessions) && Powered(sessions) && PowerServed(e.options.power, sessions)
    requires o.power != POWER_MODE_INVALID
    requires exists s :: s in sessions && Some(s.key) != skip
    ensures LosesMode(e, sessions, skip, o) <==>
            Weakens(Smallest(sessions, |sessions|, skip), Power(sessions, |sessions|, skip), o)
    ensures !SomeUnmet(sessions, skip, Power(sessions, |sessions|, skip))
  {
    SmallestOfOthers(sessions, skip);
    PowerOfOthers(sessions, skip);
    PowerIsLeastOfOthers(sessions, skip);
    var p := Power(sessions, |sessions|, skip);
    var t :| t in sessions && Some(t.key) != skip && t.options.power == p;
    assert Content(e.options.power, t.options.power);
  }

  // ---------------------------------------------------------------- every run

  /** The scan after an engine reset starts with the first session's mode, and goes on to stronger ones that are
      valid. */
  lemma {:induction false} HighestIsLeast(sessions: seq<Session>, k: nat)
    requires 0 < k <= |sessions| && Sized(sessions)
    ensures var m := Highest(sessions, k);
            m.size > 0 && (m.power == POWER_MODE_INVALID <==> sessions[0].options.power == POWER_MODE_INVALID) &&
            (sessions[0].options.power != POWER_MODE_INVALID ==>
               forall i :: 0 <= i < k ==> Content(m.power, sessions[i].options.power))
  {
    assert sessions[k - 1] in sessions;
    if k > 1 {
      HighestIsLeast(sessions, k - 1);
    } else {
      assert Highest(sessions, 0) == NO_OPTIONS;
    }
  }

  /** After an engine reset the engine is as fast as needed and no faster, and all are content exactly if the first
      session states a mode or none does. */
  lemma EngineUpIsExact(w: World)
    requires Sized(w.timeBased)
    ensures var e := OnEngineUp(w).engine;
            Sharp(e, w.timeBased) && forall s :: s in w.timeBased ==> e.options.interval <= s.options.interval
    ensures PowerServed(OnEngineUp(w).engine.options.power, w.timeBased) <==>
            w.timeBased == [] || w.timeBased[0].options.power != POWER_MODE_INVALID ||
            forall s :: s in w.timeBased ==> s.options.power == POWER_MODE_INVALID
  {
    SmallestOfOthers(w.timeBased, None);
    EngineUpIsSharp(w);
    if w.timeBased != [] {
      HighestIsLeast(w.timeBased, |w.timeBased|);
    }
  }

  /** The events after which some session does not have the mode it states. */
  ghost predicate Weakening(supported: bool, w: World, e: Event) {
    match e
    case Start(key, options, hasCallback) =>
      Enabled(w, e) && hasCallback && options.size > 0 && (options.distance == 0 || !supported) && w.timeBased != [] &&
      LosesMode(w.engine, w.timeBased, None, FallBack(AtLeastMinimum(options)))
    case Update(key, options) =>
      options.size > 0 &&
      if Live(w.timeBased, key) then UpdateWeakens(supported, w, key, AtLeastMinimum(FallBack(options)))
      else
        Live(w.distanceBased, key) && options.distance == 0 && w.timeBased != [] &&
        LosesMode(w.engine, w.timeBased, None, AtLeastMinimum(FallBack(options)))
    case Stop(key) => Live(w.timeBased, key) && LeavesUnmet(w.timeBased, key)
    case EngineUp =>
      w.timeBased != [] && w.timeBased[0].options.power == POWER_MODE_INVALID &&
      exists s :: s in w.timeBased && s.options.power != POWER_MODE_INVALID
  }

  /** The same for an update of a time-based session, which may become distance-based if the engine offers that. */
  ghost predicate UpdateWeakens(supported: bool, w: World, key: Key, o: Options)
    requires Live(w.timeBased, key)
  {
    var was := Find(w.timeBased, key).options;
    if o.distance > 0 then
      LeavesUnmet(w.timeBased, key) ||
      (!supported && !Content(if RestartsFor(w.timeBased, key) then Power(w.timeBased, |w.timeBased|, Some(key))
                              else w.engine.options.power, o.power))
    else
      (was.interval != o.interval || was.power != o.power) && |w.timeBased| > 1 &&
      LosesMode(w.engine, w.timeBased, Some(key), o)
  }

  lemma UnservedKeepsPowerExactly(w: World, e: Event)
    requires Shaped(false, w) && PowerServed(w.engine.options.power, w.timeBased) && Unserved(false, w, e)
    ensures var w' := Step(false, w, e);
            PowerServed(w'.engine.options.power, w'.timeBased) <==> !Weakening(false, w, e)
  {
    var s := Session(e.key, AtLeastMinimum(FallBack(e.options)));
    LiveIsAlone(w.timeBased, w.distanceBased, e.key);
    LeaveKeepsPowerExactly(w.engine, w.timeBased, e.key);
    RemoveKeeps(w.timeBased, e.key);
    PowerWithOneMore(Obey(w.engine, Leave(w.timeBased, e.key)).options.power, Remove(w.timeBased, e.key), s);
  }

  lemma PowerWithOneMore(q: PowerMode, sessions: seq<Session>, s: Session)
    requires Ordered(sessions) && forall u :: u in sessions ==> u.key.id != s.key.id
    ensures PowerServed(q, Put(sessions, s)) <==> PowerServed(q, sessions) && Content(q, s.options.power)
  {
    PutKeeps(sessions, s);
    assert s in Put(sessions, s) && forall u :: u in sessions ==> u in Put(sessions, s);
  }

  lemma UpdateKeepsPowerExactly(supported: bool, w: World, e: Event)
    requires Shaped(supported, w) && PowerServed(w.engine.options.power, w.timeBased) && e.Update?
    ensures var w' := Step(supported, w, e);
            PowerServed(w'.engine.options.power, w'.timeBased) <==> !Weakening(supported, w, e)
  {
    var s := Session(e.key, AtLeastMinimum(FallBack(e.options)));
    if Unserved(supported, w, e) {
      UnservedKeepsPowerExactly(w, e);
    } else if e.options.size > 0 && Live(w.timeBased, e.key) {
      LiveIsAlone(w.timeBased, w.distanceBased, e.key);
      if e.options.distance > 0 {
        LeaveKeepsPowerExactly(w.engine, w.timeBased, e.key);
      } else {
        AmendKeepsPowerExactly(w.engine, w.timeBased, s);
      }
    } else if e.options.size > 0 && Live(w.distanceBased, e.key) {
      ApartFlips(w.timeBased, w.distanceBased);
      LiveIsAlone(w.distanceBased, w.timeBased, e.key);
      UpdateDistanceIs(w, e);
      JoinKeepsPowerExactly(w.engine, w.timeBased, s);
    }
  }

  lemma StepKeepsPowerExactly(supported: bool, w: World, e: Event)
    requires Shaped(supported, w) && PowerServed(w.engine.options.power, w.timeBased)
    ensures var w' := Step(supported, w, e);
            PowerServed(w'.engine.options.power, w'.timeBased) <==> !Weakening(supported, w, e)
  {
    match e
    case Start(key, options, _) =>
      if Enabled(w, e) {
        JoinKeepsPowerExactly(w.engine, w.timeBased, Session(key, FallBack(AtLeastMinimum(options))));
      }
    case Update(_, _) => UpdateKeepsPowerExactly(supported, w, e);
    case Stop(key) =>
      if Live(w.timeBased, key) {
        LeaveKeepsPowerExactly(w.engine, w.timeBased, key);
      }
    case EngineUp => EngineUpIsExact(w);
  }

  ghost predicate AlwaysPowered(supported: bool, es: seq<Event>) {
    var w := Run(supported, es);
    PowerServed(w.engine.options.power, w.timeBased) && (es != [] ==> AlwaysPowered(supported, es[..|es| - 1]))
  }

  ghost predicate NeverWeakened(supported: bool, es: seq<Event>) {
    es != [] ==>
      NeverWeakened(supported, es[..|es| - 1]) && !Weakening(supported, Run(supported, es[..|es| - 1]), es[|es| - 1])
  }

  /** In every run the engine's power mode contents every session all along exactly if no event in it is such a one. */
  lemma {:induction false} RunsStayPoweredExactly(supported: bool, es: seq<Event>)
    ensures AlwaysPowered(supported, es) <==> NeverWeakened(supported, es)
  {
    if es != [] {
      var init := es[..|es| - 1];
      var w := Run(supported, init);
      RunsStayPoweredExactly(supported, init);
      RunsKeepShape(supported, init);
      if PowerServed(w.engine.options.power, w.timeBased) {
        StepKeepsPowerExactly(supported, w, es[|es| - 1]);
      }
    }
  }

  // ---------------------------------------------------------------- what the engine is sent besides interval and mode

  /** A session with the least interval of those not skipped. */
  ghost predicate LeastOf(sessions: seq<Session>, skip: Option<Key>, t: Session) {
    t in sessions && Some(t.key) != skip &&
    forall u :: u in sessions && Some(u.key) != skip ==> t.options.interval <= u.options.interval
  }

  lemma ScanTakesLeast(sessions: seq<Session>, skip: Option<Key>) returns (t: Session)
    requires Sized(sessions) && exists u :: u in sessions && Some(u.key) != skip
    ensures LeastOf(sessions, skip, t) && t.options == Smallest(sessions, |sessions|, skip)
  {
    SmallestOfOthers(sessions, skip);
    t :| t in sessions && Some(t.key) != skip && t.options == Smallest(sessions, |sessions|, skip);
  }

  /** What a restart among others sends: the options of the session with the least interval, but for a shorter interval
      or a smaller mode newly asked for. */
  ghost predicate TakesOver(e: Engine, sessions: seq<Session>, skip: Option<Key>, o: Options, e': Engine) {
    exists t :: LeastOf(sessions, skip, t) &&
      var p := Power(sessions, |sessions|, skip);
      if o.interval < t.options.interval || o.power < p then
        e'.running && e'.options == t.options.(
          interval := if o.interval < t.options.interval then o.interval else t.options.interval,
          power := if o.power < p then o.power else t.options.power)
      else e' == e
  }

  /** The first session reaches the engine as it is, a further one as above. */
  lemma JoinSends(e: Engine, sessions: seq<Session>, o: Options)
    requires Sized(sessions)
    ensures var e' := Obey(e, Join(sessions, o));
            e'.distance == e.distance &&
            if sessions == [] then e'.running && e'.options == o else TakesOver(e, sessions, None, o, e')
  {
    if sessions != [] {
      assert sessions[0] in sessions;
      var t := ScanTakesLeast(sessions, None);
    }
  }

  /** New options of the only session reach it as they are, others as above; if they change neither interval nor mode,
      nothing is sent. */
  lemma AmendSends(e: Engine, sessions: seq<Session>, key: Key, o: Options)
    requires Ordered(sessions) && Sized(sessions) && Live(sessions, key)
    ensures var e', was := Obey(e, Amend(sessions, key, o)), Find(sessions, key).options;
            e'.distance == e.distance &&
            if was.interval == o.interval && was.power == o.power then e' == e
            else if |sessions| == 1 then e'.running && e'.options == o
            else TakesOver(e, sessions, Some(key), o, e')
  {
    if |sessions| > 1 {
      var u := AnotherSession(sessions, key);
      var t := ScanTakesLeast(sessions, Some(key));
    }
  }

  ghost predicate LeavesTo(e: Engine, sessions: seq<Session>, key: Key, was: Options, e': Engine) {
    exists t :: LeastOf(sessions, Some(key), t) &&
      var p := Power(sessions, |sessions|, Some(key));
      if was.interval < t.options.interval || was.power < p then e'.running && e'.options == t.options.(power := p)
      else e' == e
  }

  /** A stop sends the options of the one with the least interval of the others, with the mode the scan of them ended
      at, if the session had a shorter interval or a smaller mode; the stop of the only one stops the engine. */
  lemma LeaveSends(e: Engine, sessions: seq<Session>, key: Key)
    requires Ordered(sessions) && Sized(sessions) && Live(sessions, key)
    ensures var e', was := Obey(e, Leave(sessions, key)), Find(sessions, key).options;
            e'.distance == e.distance &&
            if |sessions| == 1 then !e'.running && e'.options == e.options
            else LeavesTo(e, sessions, key, was, e')
  {
    if |sessions| > 1 {
      var u := AnotherSession(sessions, key);
      var t := ScanTakesLeast(sessions, Some(key));
    }
  }

  /** After an engine reset the options are those of a session with the least interval, but for the mode and the time
      between measurements, which are those of the first session that has this mode. */
  lemma EngineUpSends(w: World)
    requires Sized(w.timeBased)
    ensures var e := OnEngineUp(w).engine;
            if w.timeBased == [] then e.options == NO_OPTIONS
            else exists t, i: nat :: LeastOf(w.timeBased, None, t) && FirstWithMode(w.timeBased, i) &&
                                e.options == t.options.(power := w.timeBased[i].options.power,
                                                        tbm := w.timeBased[i].options.tbm)
  {
    if w.timeBased != [] {
      assert w.timeBased[0] in w.timeBased;
      var t := ScanTakesLeast(w.timeBased, None);
      var i := HighestIsOne(w.timeBased, |w.timeBased|);
    }
  }

  ghost predicate FirstWithMode(sessions: seq<Session>, i: nat) {
    i < |sessions| && forall j :: 0 <= j < i ==> sessions[j].options.power != sessions[i].options.power
  }

  lemma {:induction false} HighestIsOne(sessions: seq<Session>, k: nat) returns (i: nat)
    requires 0 < k <= |sessions| && Sized(sessions)
    ensures i < k && FirstWithMode(sessions, i) && Highest(sessions, k) == sessions[i].options
    ensures sessions[0].options.power == POWER_MODE_INVALID || forall j :: 0 <= j < k ==>
              sessions[j].options.power == POWER_MODE_INVALID || sessions[i].options.power <= sessions[j].options.power
    ensures sessions[0].options.power == POWER_MODE_INVALID ==> i == 0
  {
    i := 0;
    if k > 1 {
      var before := HighestIsOne(sessions, k - 1);
      var m, o := Highest(sessions, k - 1), sessions[k - 1].options;
      assert sessions[before] in sessions;
      i := if o.power != POWER_MODE_INVALID && o.power < m.power then k - 1 else before;
    } else {
      assert Highest(sessions, 0) == NO_OPTIONS;
    }
  }

  // ---------------------------------------------------------------- the sessions hold what was asked for

  /** Intervals below 100 ms are raised to that; mode 4 with more than 480 s between measurements becomes mode 2. */
  function Raised(o: Options): Options {
    o.(interval := if o.interval >= 100 then o.interval else 100)
  }

  function Lowered(o: Options): Options {
    o.(power := if o.power == 4 && o.tbm > 480000 then 2 else o.power)
  }

  /** The options last asked for by each session that is live, as far as they are granted. */
  function Held(supported: bool, es: seq<Event>): map<Key, Options> {
    if es == [] then map[]
    else
      var held := Held(supported, es[..|es| - 1]);
      match es[|es| - 1]
      case Start(key, o, hasCallback) =>
        if hasCallback && o.size > 0 && Enabled(Run(supported, es[..|es| - 1]), es[|es| - 1]) then
          held[key := if o.distance > 0 && supported then Raised(o) else Lowered(Raised(o))]
        else held
      case Update(key, o) => if key in held && o.size > 0 then held[key := Lowered(Raised(o))] else held
      case Stop(key) => held - {key}
      case EngineUp => held
  }

  /** The list of the live sessions that track by time, or by distance, which they do if they have a minimum distance
      and the engine supports that. */
  ghost predicate FiledIn(supported: bool, sessions: seq<Session>, byDistance: bool, held: map<Key, Options>) {
    forall s :: s in sessions <==>
      s.key in held && held[s.key] == s.options && byDistance == (s.options.distance > 0 && supported)
  }

  ghost predicate Files(supported: bool, w: World, held: map<Key, Options>) {
    FiledIn(supported, w.timeBased, false, held) && FiledIn(supported, w.distanceBased, true, held)
  }

  lemma FiledIsLive(supported: bool, w: World, held: map<Key, Options>, key: Key)
    requires Files(supported, w, held)
    ensures key in held <==> Live(w.timeBased, key) || Live(w.distanceBased, key)
    ensures Live(w.timeBased, key) ==> !(held[key].distance > 0 && supported)
    ensures Live(w.distanceBased, key) ==> held[key].distance > 0 && supported
  {
    if key in held {
      var s := Session(key, held[key]);
      assert s in w.timeBased || s in w.distanceBased;
    }
    if Live(w.timeBased, key) {
      assert Find(w.timeBased, key) in w.timeBased;
    }
    if Live(w.distanceBased, key) {
      assert Find(w.distanceBased, key) in w.distanceBased;
    }
  }

  lemma PutFiles(
    supported: bool, sessions: seq<Session>, byDistance: bool, held: map<Key, Options>, key: Key, o: Options)
    requires Ordered(sessions) && forall u :: u in sessions && u.key.id == key.id ==> u.key == key
    requires FiledIn(supported, sessions, byDistance, held) && byDistance == (o.distance > 0 && supported)
    ensures FiledIn(supported, Put(sessions, Session(key, o)), byDistance, held[key := o])
  {
    PutKeeps(sessions, Session(key, o));
  }

  lemma OthersFile(
    supported: bool, sessions: seq<Session>, byDistance: bool, held: map<Key, Options>, key: Key, o: Options)
    requires FiledIn(supported, sessions, byDistance, held) && byDistance != (o.distance > 0 && supported)
    requires forall u :: u in sessions ==> u.key != key
    ensures FiledIn(supported, sessions, byDistance, held[key := o])
  {}

  lemma RemoveFiles(supported: bool, sessions: seq<Session>, byDistance: bool, held: map<Key, Options>, key: Key)
    requires Ordered(sessions) && FiledIn(supported, sessions, byDistance, held)
    ensures FiledIn(supported, Remove(sessions, key), byDistance, held - {key})
  {
    RemoveKeeps(sessions, key);
  }

  lemma AbsentFiles(supported: bool, sessions: seq<Session>, byDistance: bool, held: map<Key, Options>, key: Key)
    requires FiledIn(supported, sessions, byDistance, held) && !Live(sessions, key)
    ensures FiledIn(supported, sessions, byDistance, held - {key}) && forall u :: u in sessions ==> u.key != key
  {
    forall u | u in sessions
      ensures u.key != key
    {
      var i :| 0 <= i < |sessions| && sessions[i] == u;
    }
  }

  /** A session that leaves one of the two lists leaves nobody with its id. */
  lemma NobodyLeft(a: seq<Session>, b: seq<Session>, key: Key)
    requires Ordered(a) && Ordered(b) && Apart(a, b) && Live(a, key)
    ensures Ordered(Remove(a, key)) && forall u :: u in Remove(a, key) || u in b ==> u.key.id != key.id
    ensures !Live(b, key)
  {
    RemoveKeeps(a, key);
    LiveIsAlone(a, b, key);
  }

  lemma StopFiles(supported: bool, w: World, held: map<Key, Options>, key: Key)
    requires Shaped(supported, w) && Files(supported, w, held) && key in held
    ensures var left := EraseSession(w, key);
            Files(supported, left, held - {key}) && Ordered(left.timeBased) && Ordered(left.distanceBased) &&
            forall u :: u in left.timeBased || u in left.distanceBased ==> u.key.id != key.id
  {
    FiledIsLive(supported, w, held, key);
    if Live(w.timeBased, key) {
      NobodyLeft(w.timeBased, w.distanceBased, key);
      RemoveFiles(supported, w.timeBased, false, held, key);
      AbsentFiles(supported, w.distanceBased, true, held, key);
    } else {
      ApartFlips(w.timeBased, w.distanceBased);
      NobodyLeft(w.distanceBased, w.timeBased, key);
      RemoveFiles(supported, w.distanceBased, true, held, key);
      AbsentFiles(supported, w.timeBased, false, held, key);
    }
  }

  /** Filed anew where nobody has its id. */
  lemma StartFiles(supported: bool, w: World, held: map<Key, Options>, key: Key, o: Options)
    requires Ordered(w.timeBased) && Ordered(w.distanceBased) && Files(supported, w, held)
    requires forall u :: u in w.timeBased || u in w.distanceBased ==> u.key.id != key.id
    ensures Files(supported, Save(supported, w, key, o), held[key := o])
  {
    if o.distance > 0 && supported {
      PutFiles(supported, w.distanceBased, true, held, key, o);
      OthersFile(supported, w.timeBased, false, held, key, o);
    } else {
      PutFiles(supported, w.timeBased, false, held, key, o);
      OthersFile(supported, w.distanceBased, true, held, key, o);
    }
  }

  /** Filed anew after it has been taken off its list, */
  lemma MoveFiles(supported: bool, w: World, held: map<Key, Options>, key: Key, o: Options)
    requires Shaped(supported, w) && Files(supported, w, held) && key in held
    ensures Files(supported, Save(supported, EraseSession(w, key), key, o), held[key := o])
  {
    StopFiles(supported, w, held, key);
    StartFiles(supported, EraseSession(w, key), held - {key}, key, o);
    assert (held - {key})[key := o] == held[key := o];
  }

  /** or in the list it is in. */
  lemma StayFiles(supported: bool, w: World, held: map<Key, Options>, key: Key, o: Options)
    requires Shaped(supported, w) && Files(supported, w, held) && key in held
    requires Live(w.timeBased, key) <==> !(o.distance > 0 && supported)
    ensures Files(supported, Save(supported, w, key, o), held[key := o])
  {
    FiledIsLive(supported, w, held, key);
    if Live(w.timeBased, key) {
      LiveIsAlone(w.timeBased, w.distanceBased, key);
      PutFiles(supported, w.timeBased, false, held, key, o);
      OthersFile(supported, w.distanceBased, true, held, key, o);
    } else {
      ApartFlips(w.timeBased, w.distanceBased);
      LiveIsAlone(w.distanceBased, w.timeBased, key);
      PutFiles(supported, w.distanceBased, true, held, key, o);
      OthersFile(supported, w.timeBased, false, held, key, o);
    }
  }

  lemma UpdateFiles(supported: bool, w: World, held: map<Key, Options>, key: Key, options: Options)
    requires Shaped(supported, w) && Files(supported, w, held) && key in held && options.size > 0
    ensures Files(supported, OnUpdate(supported, w, key, options), held[key := Lowered(Raised(options))])
  {
    var o := Lowered(Raised(options));
    FiledIsLive(supported, w, held, key);
    if Live(w.timeBased, key) == (o.distance == 0) {
      StayFiles(supported, w, held, key, o);
    } else {
      MoveFiles(supported, w, held, key, o);
    }
  }

  /** In every run the live sessions, and no others, are on the two lists, each with the options last asked for. */
  lemma {:induction false} SessionsHoldWhatTheyAsked(supported: bool, es: seq<Event>)
    ensures Files(supported, Run(supported, es), Held(supported, es))
  {
    if es != [] {
      var init, e := es[..|es| - 1], es[|es| - 1];
      var w, held := Run(supported, init), Held(supported, init);
      SessionsHoldWhatTheyAsked(supported, init);
      RunsKeepShape(supported, init);
      match e
      case Start(key, o, hasCallback) =>
        if Enabled(w, e) && hasCallback && o.size > 0 {
          StartFiles(supported, w, held, key, if o.distance > 0 && supported then Raised(o) else Lowered(Raised(o)));
        }
      case Update(key, o) =>
        FiledIsLive(supported, w, held, key);
        if key in held && o.size > 0 {
          UpdateFiles(supported, w, held, key, o);
        }
      case Stop(key) =>
        FiledIsLive(supported, w, held, key);
        if key in held {
          StopFiles(supported, w, held, key);
        } else {
          assert held - {key} == held;
        }
      case EngineUp =>
    }
  }

  // ---------------------------------------------------------------- runs in which every session states a mode

  predicate StatesMode(e: Event) {
    (e.Start? || e.Update?) ==> e.options.power != POWER_MODE_INVALID
  }

  /** The only events then that lose a mode: a restart for the interval alone, as above, or a session that asks for a
      stronger mode than the engine is left with when it fails to become distance-based. */
  ghost predicate StatedWeakening(supported: bool, w: World, e: Event) {
    match e
    case Start(key, options, hasCallback) =>
      Enabled(w, e) && hasCallback && options.size > 0 && (options.distance == 0 || !supported) &&
      WeakensOthers(w, None, FallBack(AtLeastMinimum(options)))
    case Update(key, options) =>
      var o, n := AtLeastMinimum(FallBack(options)), |w.timeBased|;
      options.size > 0 &&
      if Live(w.timeBased, key) then
        var was := Find(w.timeBased, key).options;
        if options.distance > 0 then
          !supported && o.power < if RestartsFor(w.timeBased, key) then Power(w.timeBased, n, Some(key))
                                  else w.engine.options.power
        else
          (was.interval != o.interval || was.power != o.power) && n > 1 && WeakensOthers(w, Some(key), o)
      else Live(w.distanceBased, key) && options.distance == 0 && WeakensOthers(w, None, o)
    case _ => false
  }

  predicate WeakensOthers(w: World, skip: Option<Key>, o: Options) {
    var n := |w.timeBased|;
    n > 0 && Weakens(Smallest(w.timeBased, n, skip), Power(w.timeBased, n, skip), o)
  }

  lemma StatedPut(sessions: seq<Session>, s: Session)
    requires Ordered(sessions) && forall u :: u in sessions && u.key.id == s.key.id ==> u.key == s.key
    requires Powered(sessions) && s.options.power != POWER_MODE_INVALID
    ensures Powered(Put(sessions, s))
  {
    PutKeeps(sessions, s);
  }

  lemma StatedRemove(sessions: seq<Session>, key: Key)
    requires Ordered(sessions) && Powered(sessions)
    ensures Powered(Remove(sessions, key)) && Ordered(Remove(sessions, key))
    ensures forall u :: u in Remove(sessions, key) ==> u in sessions
  {
    RemoveKeeps(sessions, key);
  }

  lemma StatedUpdateStays(supported: bool, w: World, e: Event)
    requires Shaped(supported, w) && Powered(w.timeBased) && StatesMode(e) && e.Update?
    ensures Powered(Step(supported, w, e).timeBased)
  {
    var s := Session(e.key, AtLeastMinimum(FallBack(e.options)));
    if Live(w.timeBased, e.key) {
      LiveIsAlone(w.timeBased, w.distanceBased, e.key);
      StatedRemove(w.timeBased, e.key);
      StatedPut(w.timeBased, s);
      StatedPut(Remove(w.timeBased, e.key), s);
    } else if Live(w.distanceBased, e.key) {
      ApartFlips(w.timeBased, w.distanceBased);
      LiveIsAlone(w.distanceBased, w.timeBased, e.key);
      StatedPut(w.timeBased, s);
    }
  }

  lemma StatedStays(supported: bool, w: World, e: Event)
    requires Shaped(supported, w) && Powered(w.timeBased) && StatesMode(e)
    ensures Powered(Step(supported, w, e).timeBased)
  {
    if Enabled(w, e) {
      match e
      case Start(key, options, _) => StatedPut(w.timeBased, Session(key, FallBack(AtLeastMinimum(options))));
      case Update(_, _) => StatedUpdateStays(supported, w, e);
      case Stop(key) => StatedRemove(w.timeBased, key);
      case EngineUp =>
    }
  }

  lemma StatedJoin(w: World, o: Options)
    requires Sized(w.timeBased) && Powered(w.timeBased) && o.power != POWER_MODE_INVALID
    requires PowerServed(w.engine.options.power, w.timeBased) && w.timeBased != []
    ensures LosesMode(w.engine, w.timeBased, None, o) <==> WeakensOthers(w, None, o)
  {
    assert w.timeBased[0] in w.timeBased;
    StatedModesLostExactly(w.engine, w.timeBased, None, o);
  }

  lemma StatedUpdate(supported: bool, w: World, key: Key, o: Options)
    requires Shaped(supported, w) && Powered(w.timeBased) && o.power != POWER_MODE_INVALID
    requires PowerServed(w.engine.options.power, w.timeBased) && Live(w.timeBased, key)
    ensures var n, was := |w.timeBased|, Find(w.timeBased, key).options;
            UpdateWeakens(supported, w, key, o) <==>
            if o.distance > 0 then
              !supported && o.power < if RestartsFor(w.timeBased, key) then Power(w.timeBased, n, Some(key))
                                      else w.engine.options.power
            else (was.interval != o.interval || was.power != o.power) && n > 1 && WeakensOthers(w, Some(key), o)
    ensures !LeavesUnmet(w.timeBased, key)
  {
    assert Content(w.engine.options.power, Find(w.timeBased, key).options.power);
    if |w.timeBased| > 1 {
      var other := AnotherSession(w.timeBased, key);
      StatedModesLostExactly(w.engine, w.timeBased, Some(key), o);
      PowerIsLeastOfOthers(w.timeBased, Some(key));
    }
  }

  lemma StatedWeakensExactly(supported: bool, w: World, e: Event)
    requires Shaped(supported, w) && Powered(w.timeBased) && StatesMode(e)
    requires PowerServed(w.engine.options.power, w.timeBased)
    ensures Weakening(supported, w, e) <==> StatedWeakening(supported, w, e)
  {
    match e
    case Start(_, options, _) =>
      if w.timeBased != [] {
        StatedJoin(w, FallBack(AtLeastMinimum(options)));
      }
    case Update(key, options) =>
      if Live(w.timeBased, key) {
        StatedUpdate(supported, w, key, AtLeastMinimum(FallBack(options)));
      } else if w.timeBased != [] {
        StatedJoin(w, AtLeastMinimum(FallBack(options)));
      }
    case Stop(key) =>
      if Live(w.timeBased, key) {
        StatedUpdate(supported, w, key, Find(w.timeBased, key).options);
      }
    case EngineUp => assert w.timeBased != [] ==> w.timeBased[0] in w.timeBased;
  }

  ghost predicate NeverWeakensStated(supported: bool, es: seq<Event>) {
    es != [] ==>
      NeverWeakensStated(supported, es[..|es| - 1]) &&
      !StatedWeakening(supported, Run(supported, es[..|es| - 1]), es[|es| - 1])
  }

  /** In every run in which all sessions state a mode, each has it all along exactly if no event is such a one; so stops
      and engine resets never lose one. */
  lemma {:induction false} StatedRunsStayPoweredExactly(supported: bool, es: seq<Event>)
    requires forall e :: e in es ==> StatesMode(e)
    ensures Powered(Run(supported, es).timeBased)
    ensures AlwaysPowered(supported, es) <==> NeverWeakensStated(supported, es)
  {
    if es != [] {
      var init, e := es[..|es| - 1], es[|es| - 1];
      var w := Run(supported, init);
      assert e in es;
      StatedRunsStayPoweredExactly(supported, init);
      RunsKeepShape(supported, init);
      StatedStays(supported, w, e);
      if PowerServed(w.engine.options.power, w.timeBased) {
        StepKeepsPowerExactly(supported, w, e);
        StatedWeakensExactly(supported, w, e);
      }
    }
  }

  // ---------------------------------------------------------------- runs that lose a mode

  lemma RunStep(supported: bool, es: seq<Event>, k: nat)
    requires k < |es|
    ensures Run(supported, es[..k + 1]) == Step(supported, Run(supported, es[..k]), es[k])
  {
    assert es[..k + 1][..k] == es[..k];
  }

  /** Time-based options that a start files as they are. */
  predicate Plain(o: Options) {
    o.size > 0 && o.distance == 0 && o.interval >= MIN_TRACKING_INTERVAL && FallBack(o) == o
  }

  function StartOf(s: Session): Event {
    Start(s.key, s.options, true)
  }

  predicate Started(e: Event, s: Session) {
    Plain(s.options) && e == StartOf(s)
  }

  lemma {:induction false} PutLast(sessions: seq<Session>, s: Session)
    requires forall u :: u in sessions ==> u.key.id < s.key.id
    ensures Put(sessions, s) == sessions + [s]
  {
    if sessions != [] {
      assert sessions[0] in sessions;
      PutLast(sessions[1..], s);
      assert sessions == [sessions[0]] + sessions[1..];
    }
  }

  lemma JoinsLast(supported: bool, w: World, e: Event, s: Session)
    requires Started(e, s) && w.distanceBased == [] && forall u :: u in w.timeBased ==> u.key.id < s.key.id
    ensures var w' := Step(supported, w, e);
            w'.timeBased == w.timeBased + [s] && w'.distanceBased == [] &&
            w'.engine == Obey(w.engine, Join(w.timeBased, s.options))
  {
    PutLast(w.timeBased, s);
  }

  lemma TwoStarted(supported: bool, a: Session, b: Session, es: seq<Event>)
    requires |es| >= 2 && Started(es[0], a) && Started(es[1], b) && a.key.id < b.key.id
    ensures var w := Run(supported, es[..2]);
            w.timeBased == [a, b] && w.distanceBased == [] && w.engine.running &&
            w.engine.options == match Widen(a.options, a.options.power, b.options) case Arm(o) => o case _ => a.options
  {
    RunStep(supported, es, 0);
    RunStep(supported, es, 1);
    assert es[..0] == [];
    JoinsLast(supported, Initial, es[0], a);
    JoinsLast(supported, Run(supported, es[..1]), es[1], b);
    OnlyOne(a);
  }

  lemma OnlyOne(a: Session)
    requires a.options.size > 0
    ensures Smallest([a], 1, None) == a.options && Power([a], 1, None) == a.options.power
  {
    assert Smallest([a], 0, None) == NO_OPTIONS && Power([a], 0, None) == POWER_MODE_INVALID;
  }

  /** A session that states no power mode starts, then one that does, no more often: its mode never gets to the
      engine. */
  lemma UnstatedModeHides(supported: bool, a: Session, b: Session)
    requires Plain(a.options) && Plain(b.options) && a.key.id < b.key.id
    requires a.options.power == POWER_MODE_INVALID < b.options.power && a.options.interval <= b.options.interval
    ensures var w := Run(supported, [StartOf(a), StartOf(b)]);
            w.timeBased == [a, b] && w.engine.running && w.engine.options.power == POWER_MODE_INVALID
  {
    var es := [StartOf(a), StartOf(b)];
    TwoStarted(supported, a, b, es);
    assert es[..2] == es;
  }

  /** One that states no mode starts after one that does: the engine's mode is taken back, however rare the newcomer. */
  lemma UnstatedModeTakesOver(supported: bool, a: Session, b: Session)
    requires Plain(a.options) && Plain(b.options) && a.key.id < b.key.id
    requires b.options.power == POWER_MODE_INVALID < a.options.power
    ensures var w := Run(supported, [StartOf(a), StartOf(b)]);
            w.timeBased == [a, b] && w.engine.running && w.engine.options.power == POWER_MODE_INVALID
  {
    var es := [StartOf(a), StartOf(b)];
    TwoStarted(supported, a, b, es);
    assert es[..2] == es;
  }

  /** All state a mode: a strong one starts, a weaker and more frequent one, then a yet more frequent one that is no
      stronger than the first.  The engine now runs in the weaker mode of the second. */
  lemma ThirdSessionWeakens(supported: bool, a: Session, b: Session, c: Session)
    requires Plain(a.options) && Plain(b.options) && Plain(c.options) && a.key.id < b.key.id < c.key.id
    requires c.options.interval < b.options.interval < a.options.interval
    requires 0 < a.options.power < b.options.power && a.options.power <= c.options.power
    ensures var w := Run(supported, [StartOf(a), StartOf(b), StartOf(c)]);
            w.timeBased == [a, b, c] && w.engine.running && w.engine.options.power == b.options.power > a.options.power
  {
    var es := [StartOf(a), StartOf(b), StartOf(c)];
    ThreeStarted(supported, a, b, c, es);
    ScansOfTwo([a, b], None);
    assert es[..3] == es;
  }

  lemma ThreeStarted(supported: bool, a: Session, b: Session, c: Session, es: seq<Event>)
    requires |es| >= 3 && Started(es[0], a) && Started(es[1], b) && Started(es[2], c) && a.key.id < b.key.id < c.key.id
    ensures var w, m, p := Run(supported, es[..3]), Smallest([a, b], 2, None), Power([a, b], 2, None);
            w.timeBased == [a, b, c] && w.distanceBased == [] && w.engine.running &&
            (c.options.interval < m.interval && p <= c.options.power ==> w.engine.options.power == m.power)
  {
    TwoStarted(supported, a, b, es);
    RunStep(supported, es, 2);
    JoinsLast(supported, Run(supported, es[..2]), es[2], c);
  }

  /** The scans of one session and of the next. */
  lemma ScansOfTwo(sessions: seq<Session>, skip: Option<Key>)
    requires |sessions| >= 2 && sessions[0].options.size > 0
    requires Some(sessions[0].key) != skip && Some(sessions[1].key) != skip
    ensures var a, b := sessions[0].options, sessions[1].options;
            Smallest(sessions, 2, skip) == (if b.interval < a.interval then b else a) &&
            Power(sessions, 2, skip) == if a.power == POWER_MODE_INVALID || b.power < a.power then b.power else a.power
  {
    assert Smallest(sessions, 0, skip) == NO_OPTIONS && Power(sessions, 0, skip) == POWER_MODE_INVALID;
    assert Smallest(sessions, 1, skip) == sessions[0].options && Power(sessions, 1, skip) == sessions[0].options.power;
  }

  /** A session that states a mode starts, a rarer one that states none, and a more frequent one that is content with
      the first one's mode, which the engine then runs in; when the third stops, the engine loses that mode. */
  lemma StopLosesMode(supported: bool, a: Session, b: Session, c: Session)
    requires Plain(a.options) && Plain(b.options) && Plain(c.options) && a.key.id < b.key.id < c.key.id
    requires c.options.interval < a.options.interval <= b.options.interval
    requires b.options.power == POWER_MODE_INVALID < a.options.power <= c.options.power
    ensures var es := [StartOf(a), StartOf(b), StartOf(c), Stop(c.key)];
            var before, w := Run(supported, es[..3]), Run(supported, es);
            PowerServed(before.engine.options.power, before.timeBased) && before.timeBased == [a, b, c] &&
            w.timeBased == [a, b] && w.engine.running && w.engine.options.power == POWER_MODE_INVALID
  {
    var es := [StartOf(a), StartOf(b), StartOf(c), Stop(c.key)];
    ThreeStarted(supported, a, b, c, es);
    ScansOfTwo([a, b], None);
    RunStep(supported, es, 3);
    assert es[..4] == es;
    LastStops(supported, Run(supported, es[..3]), a, b, c);
  }

  lemma LastStops(supported: bool, w: World, a: Session, b: Session, c: Session)
    requires w.timeBased == [a, b, c] && w.distanceBased == [] && w.engine.running && a.key.id < b.key.id < c.key.id
    requires a.options.size > 0 && c.options.interval < a.options.interval <= b.options.interval
    ensures var w' := Step(supported, w, Stop(c.key));
            w'.timeBased == [a, b] && w'.engine.running &&
            w'.engine.options.power ==
              if a.options.power == POWER_MODE_INVALID || b.options.power < a.options.power then b.options.power
              else a.options.power
  {
    var sessions := w.timeBased;
    assert sessions[2].key == c.key;
    ScansOfTwo(sessions, Some(c.key));
    assert Smallest(sessions, 3, Some(c.key)) == a.options;
    RemoveLast([a, b], c);
    assert [a, b] + [c] == sessions;
  }

  lemma {:induction false} RemoveLast(sessions: seq<Session>, s: Session)
    requires forall u :: u in sessions ==> u.key != s.key
    ensures Live(sessions + [s], s.key)
    ensures Remove(sessions + [s], s.key) == sessions && Find(sessions + [s], s.key) == s
  {
    assert (sessions + [s])[|sessions|].key == s.key;
    if sessions != [] {
      assert sessions[0] in sessions;
      RemoveLast(sessions[1..], s);
      assert (sessions + [s])[1..] == sessions[1..] + [s];
    } else {
      assert [s][1..] == [];
    }
  }

  /** A session that states no mode starts, and two ever more frequent ones that state the same: the engine runs in
      their mode until it is reset, and then in none. */
  lemma ResetLosesMode(supported: bool, a: Session, b: Session, c: Session)
    requires Plain(a.options) && Plain(b.options) && Plain(c.options) && a.key.id < b.key.id < c.key.id
    requires c.options.interval < b.options.interval < a.options.interval
    requires a.options.power == POWER_MODE_INVALID < b.options.power <= c.options.power
    ensures var es := [StartOf(a), StartOf(b), StartOf(c), EngineUp];
            var before, w := Run(supported, es[..3]), Run(supported, es);
            PowerServed(before.engine.options.power, before.timeBased) && w.timeBased == [a, b, c] &&
            before.timeBased == [a, b, c] && w.engine.running && w.engine.options.power == POWER_MODE_INVALID
  {
    var es := [StartOf(a), StartOf(b), StartOf(c), EngineUp];
    ThreeStarted(supported, a, b, c, es);
    ScansOfTwo([a, b], None);
    RunStep(supported, es, 3);
    assert es[..4] == es;
    HighestIsLeast([a, b, c], 3);
  }
}
