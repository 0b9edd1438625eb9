/**
 The two geofence maps (gps/geofence/GeofenceAdapter.cpp): hardware id to geofence, and client key to hardware id.

 Calls to the engine are numbered; `answered` holds the numbers of those it has answered.  Answers come in any order,
 at any time, or never.  The engine never hands out a hardware id twice, and the ids given to clients are new.
 */
module GeofenceProtocol {
  import opened Wrappers

  datatype Key = Key(client: nat, id: nat)

  datatype Options = Options(breachMask: nat, responsiveness: nat, dwellTime: nat)

  /** `GeofenceObject`; `area` stands for the latitude, longitude and radius, which are only copied. */
  datatype Geofence = Geofence(key: Key, options: Options, area: nat, paused: bool)

  /** `Forget` is the removal sent for a client that goes away, `Repause` the pause sent for a geofence that the engine
      has taken back after a restart; nothing is done with its answer. */
  datatype Call =
    | Add(fence: Geofence)
    | Remove(hw: nat)
    | Forget(hw: nat)
    | Pause(hw: nat)
    | Repause(hw: nat)
    | Resume(hw: nat)
    | Modify(hw: nat, options: Options)

  /** `asked` holds the keys ever added by clients, `stopped` those whose client went away. */
  datatype World = World(
    geofences: map<nat, Geofence>, ids: map<Key, nat>, calls: seq<Call>, answered: set<nat>, used: set<nat>,
    asked: set<Key>, stopped: set<Key>)

  /** The orders are those in which the code walks through a map. */
  datatype Event =
    | AddGeofence(fence: Geofence)
    | RemoveGeofence(key: Key)
    | PauseGeofence(key: Key)
    | ResumeGeofence(key: Key)
    | ModifyGeofence(key: Key, options: Options)
    | StopClient(client: nat, keys: seq<Key>)
    | Restart(hws: seq<nat>)
    | Respond(call: nat, ok: bool, hw: nat)

  // ---------------------------------------------------------------- pieces of the code

  /** `s` lists every element of `all` once. */
  ghost predicate Lists<T(!new)>(s: seq<T>, all: set<T>) {
    (forall x :: x in s <==> x in all) && forall i, j :: 0 <= i < j < |s| ==> s[i] != s[j]
  }

  function KeysOf(ids: map<Key, nat>, client: nat): set<Key> {
    set k | k in ids && k.client == client
  }

  function Issue(w: World, cs: seq<Call>): World {
    w.(calls := w.calls + cs)
  }

  /** `saveGeofenceItem`. */
  function SaveItem(w: World, fence: Geofence, hw: nat): World {
    w.(geofences := w.geofences[hw := fence.(paused := false)], ids := w.ids[fence.key := hw])
  }

  /** `removeGeofenceItem`. */
  function RemoveItem(w: World, hw: nat): World {
    if hw in w.geofences && w.geofences[hw].key in w.ids then
      w.(ids := w.ids - {w.geofences[hw].key}, geofences := w.geofences - {hw})
    else w
  }

  function Changed(c: Call, f: Geofence): Geofence
    requires c.Pause? || c.Resume? || c.Modify?
  {
    match c
    case Pause(_) => f.(paused := true)
    case Resume(_) => f.(paused := false)
    case Modify(_, options) => f.(options := options)
  }

  /** `pauseGeofenceItem`, `resumeGeofenceItem` and `modifyGeofenceItem`. */
  function ChangeItem(w: World, c: Call): World
    requires c.Pause? || c.Resume? || c.Modify?
  {
    if c.hw in w.geofences then w.(geofences := w.geofences[c.hw := Changed(c, w.geofences[c.hw])]) else w
  }

  function Forgets(ids: map<Key, nat>, order: seq<Key>): (cs: seq<Call>)
    requires forall k :: k in order ==> k in ids
    ensures |cs| == |order| && forall i :: 0 <= i < |cs| ==> cs[i] == Forget(ids[order[i]])
  {
    seq(|order|, i requires 0 <= i < |order| => Forget(ids[order[i]]))
  }

  function Readds(geofences: map<nat, Geofence>, order: seq<nat>): (cs: seq<Call>)
    requires forall hw :: hw in order ==> hw in geofences
    ensures |cs| == |order| && forall i :: 0 <= i < |cs| ==> cs[i] == Add(geofences[order[i]])
  {
    seq(|order|, i requires 0 <= i < |order| => Add(geofences[order[i]]))
  }

  // ---------------------------------------------------------------- one event

  ghost function OnStopClient(w: World, client: nat, order: seq<Key>): World
    requires Lists(order, KeysOf(w.ids, client))
  {
    Issue(w.(ids := w.ids - KeysOf(w.ids, client), stopped := w.stopped + KeysOf(w.ids, client)), Forgets(w.ids, order))
  }

  ghost function OnRestart(w: World, order: seq<nat>): World
    requires Lists(order, w.geofences.Keys)
  {
    if |w.geofences| == 0 then w
    else Issue(w.(geofences := map[], ids := map[]), Readds(w.geofences, order))
  }

  function Effect(w: World, call: Call, hw: nat): World {
    match call
    case Add(fence) => SaveItem(if fence.paused then Issue(w, [Repause(hw)]) else w, fence, hw)
    case Repause(_) => w
    case Remove(hwId) => RemoveItem(w, hwId)
    case Forget(hwId) => w.(geofences := w.geofences - {hwId})
    case _ => ChangeItem(w, call)
  }

  function OnRespond(w: World, call: nat, ok: bool, hw: nat): World
    requires call < |w.calls|
  {
    var c, w1 := w.calls[call], w.(answered := w.answered + {call});
    if !ok then w1 else Effect(if c.Add? then w1.(used := w1.used + {hw}) else w1, c, hw)
  }

  predicate Open(w: World, call: nat) {
    call < |w.calls| && call !in w.answered
  }

  ghost predicate Enabled(w: World, e: Event) {
    match e
    case AddGeofence(fence) => fence.key !in w.asked
    case StopClient(client, order) => Lists(order, KeysOf(w.ids, client))
    case Restart(order) => Lists(order, w.geofences.Keys)
    case Respond(call, ok, hw) => Open(w, call) && (w.calls[call].Add? && ok ==> hw !in w.used)
    case _ => true
  }

  /** An event that cannot happen leaves everything as it is.  A key that is not known is only answered. */
  ghost function Step(w: World, e: Event): World {
    if !Enabled(w, e) then w
    else
      match e
      case AddGeofence(fence) => Issue(w.(asked := w.asked + {fence.key}), [Add(fence.(paused := false))])
      case RemoveGeofence(key) => if key in w.ids then Issue(w, [Remove(w.ids[key])]) else w
      case PauseGeofence(key) => if key in w.ids then Issue(w, [Pause(w.ids[key])]) else w
      case ResumeGeofence(key) => if key in w.ids then Issue(w, [Resume(w.ids[key])]) else w
      case ModifyGeofence(key, options) => if key in w.ids then Issue(w, [Modify(w.ids[key], options)]) else w
      case StopClient(client, order) => OnStopClient(w, client, order)
      case Restart(order) => OnRestart(w, order)
      case Respond(call, ok, hw) => OnRespond(w, call, ok, hw)
  }

  const Initial := World(map[], map[], [], {}, {}, {}, {})

  ghost function Run(es: seq<Event>): World {
    if es == [] then Initial else Step(Run(es[..|es| - 1]), es[|es| - 1])
  }

  // ---------------------------------------------------------------- the laws

  /** Every client key points to a stored geofence with that same key. */
  ghost predicate Pointed(w: World) {
    forall k :: k in w.ids ==> w.ids[k] in w.geofences && w.geofences[w.ids[k]].key == k
  }

  /** A geofence is stored for its key, or its client went away. */
  ghost predicate Owned(w: World) {
    forall hw :: hw in w.geofences ==> w.geofences[hw].key in w.ids || w.geofences[hw].key in w.stopped
  }

  /** The geofences of the engine calls are unanswered, and those to be removed for a client are not its any more. */
  ghost predicate CallsFit(w: World) {
    (forall i :: i in w.answered ==> i < |w.calls|) &&
    (forall i :: 0 <= i < |w.calls| && !w.calls[i].Add? ==> w.calls[i].hw in w.used) &&
    (forall i, k :: 0 <= i < |w.calls| && w.calls[i].Forget? && k in w.ids ==> w.ids[k] != w.calls[i].hw)
  }

  ghost predicate Adding(w: World, call: nat) {
    Open(w, call) && w.calls[call].Add?
  }

  /** Of one key there is a single geofence: stored, or on its way to the engine. */
  ghost predicate Single(w: World) {
    (forall a, b :: a in w.geofences && b in w.geofences && w.geofences[a].key == w.geofences[b].key ==> a == b) &&
    (forall i: nat, j: nat :: Adding(w, i) && Adding(w, j) && w.calls[i].fence.key == w.calls[j].fence.key ==>
       i == j) &&
    (forall a, i: nat :: a in w.geofences && Adding(w, i) ==> w.geofences[a].key != w.calls[i].fence.key)
  }

  ghost predicate Known(w: World) {
    (forall hw :: hw in w.geofences ==> hw in w.used && w.geofences[hw].key in w.asked) &&
    (forall i :: 0 <= i < |w.calls| && w.calls[i].Add? ==> w.calls[i].fence.key in w.asked)
  }

  ghost predicate Inv(w: World) {
    Pointed(w) && Owned(w) && CallsFit(w) && Single(w) && Known(w)
  }

  lemma IssueOneKeeps(w: World, c: Call)
    requires Inv(w) && !c.Add? && !c.Forget? && c.hw in w.used
    ensures Inv(Issue(w, [c]))
  {
    var w' := Issue(w, [c]);
    assert forall i :: 0 <= i < |w.calls| ==> w'.calls[i] == w.calls[i];
  }

  lemma AddKeeps(w: World, fence: Geofence)
    requires Inv(w) && fence.key !in w.asked
    ensures Inv(Step(w, AddGeofence(fence)))
  {
    var w' := Step(w, AddGeofence(fence));
    assert forall i :: 0 <= i < |w.calls| ==> w'.calls[i] == w.calls[i];
  }

  lemma StopClientKeeps(w: World, client: nat, order: seq<Key>)
    requires Inv(w) && Lists(order, KeysOf(w.ids, client))
    ensures Inv(OnStopClient(w, client, order))
  {
    var w' := OnStopClient(w, client, order);
    StopClientCalls(w, client, order);
    assert forall i: nat :: Adding(w', i) ==> Adding(w, i) && w'.calls[i] == w.calls[i];
  }

  lemma StopClientCalls(w: World, client: nat, order: seq<Key>)
    requires Pointed(w) && Known(w) && Lists(order, KeysOf(w.ids, client))
    ensures var w' := OnStopClient(w, client, order);
            |w.calls| <= |w'.calls| && (forall i :: 0 <= i < |w.calls| ==> w'.calls[i] == w.calls[i]) &&
            forall i :: |w.calls| <= i < |w'.calls| ==>
              w'.calls[i].Forget? && w'.calls[i].hw in w.used && forall k :: k in w'.ids ==> w'.ids[k] != w'.calls[i].hw
  {
    var w', n := OnStopClient(w, client, order), |w.calls|;
    forall i | n <= i < |w'.calls|
      ensures w'.calls[i].Forget? && w'.calls[i].hw in w.used
      ensures forall k :: k in w'.ids ==> w'.ids[k] != w'.calls[i].hw
    {
      assert order[i - n] in order && w'.calls[i] == Forget(w.ids[order[i - n]]);
    }
  }

  lemma RestartKeeps(w: World, order: seq<nat>)
    requires Inv(w) && Lists(order, w.geofences.Keys)
    ensures Inv(OnRestart(w, order))
  {}

  lemma SaveKeeps(w: World, call: nat, hw: nat)
    requires Inv(w) && Open(w, call) && w.calls[call].Add? && hw !in w.used
    ensures Inv(OnRespond(w, call, true, hw))
  {
    var saved := Saved(w, call, hw);
    SavedKeeps(w, call, hw);
    if w.calls[call].fence.paused {
      IssueOneKeeps(saved, Repause(hw));
    }
  }

  /** The answer but for the pause sent again. */
  function Saved(w: World, call: nat, hw: nat): World
    requires call < |w.calls| && w.calls[call].Add?
  {
    SaveItem(w.(answered := w.answered + {call}, used := w.used + {hw}), w.calls[call].fence, hw)
  }

  lemma SavedKeeps(w: World, call: nat, hw: nat)
    requires Inv(w) && Open(w, call) && w.calls[call].Add? && hw !in w.used
    ensures Inv(Saved(w, call, hw))
  {}

  lemma RemoveKeeps(w: World, call: nat, hw: nat)
    requires Inv(w) && Open(w, call) && w.calls[call].Remove?
    ensures Inv(OnRespond(w, call, true, hw))
  {}

  lemma ChangeKeeps(w: World, call: nat, hw: nat)
    requires Inv(w) && Open(w, call) && (w.calls[call].Pause? || w.calls[call].Resume? || w.calls[call].Modify?)
    ensures Inv(OnRespond(w, call, true, hw))
  {
    ChangedKeeps(w, w.calls[call]);
  }

  lemma ChangedKeeps(w: World, c: Call)
    requires Inv(w) && (c.Pause? || c.Resume? || c.Modify?)
    ensures Inv(ChangeItem(w, c))
  {
    var w' := ChangeItem(w, c);
    assert forall hw :: hw in w.geofences ==> hw in w'.geofences && w'.geofences[hw].key == w.geofences[hw].key;
  }

  lemma ForgetKeeps(w: World, call: nat, hw: nat)
    requires Inv(w) && Open(w, call) && w.calls[call].Forget?
    ensures Inv(OnRespond(w, call, true, hw))
  {}

  lemma StepKeepsInv(w: World, e: Event)
    requires Inv(w)
    ensures Inv(Step(w, e))
  {
    if Enabled(w, e) {
      match e
      case AddGeofence(fence) => AddKeeps(w, fence);
      case RemoveGeofence(key) => if key in w.ids { IssueOneKeeps(w, Remove(w.ids[key])); }
      case PauseGeofence(key) => if key in w.ids { IssueOneKeeps(w, Pause(w.ids[key])); }
      case ResumeGeofence(key) => if key in w.ids { IssueOneKeeps(w, Resume(w.ids[key])); }
      case ModifyGeofence(key, options) => if key in w.ids { IssueOneKeeps(w, Modify(w.ids[key], options)); }
      case StopClient(client, order) => StopClientKeeps(w, client, order);
      case Restart(order) => RestartKeeps(w, order);
      case Respond(_, _, _) => RespondKeeps(w, e);
    }
  }

  lemma RespondKeeps(w: World, e: Event)
    requires Inv(w) && e.Respond? && Enabled(w, e)
    ensures Inv(Step(w, e))
  {
    if e.ok {
      match w.calls[e.call]
      case Add(_) => SaveKeeps(w, e.call, e.hw);
      case Remove(_) => RemoveKeeps(w, e.call, e.hw);
      case Forget(_) => ForgetKeeps(w, e.call, e.hw);
      case Repause(_) =>
      case _ => ChangeKeeps(w, e.call, e.hw);
    }
  }

  lemma {:induction false} RunsKeepInv(es: seq<Event>)
    ensures Inv(Run(es))
  {
    if es != [] {
      RunsKeepInv(es[..|es| - 1]);
      StepKeepsInv(Run(es[..|es| - 1]), es[|es| - 1]);
    }
  }

  /** In every run no two client keys point to one hardware id. */
  lemma KeyMapIsInjective(es: seq<Event>)
    ensures var ids := Run(es).ids; forall k, l :: k in ids && l in ids && ids[k] == ids[l] ==> k == l
  {
    RunsKeepInv(es);
  }

  lemma {:induction false} NothingStopped(es: seq<Event>)
    requires forall e :: e in es ==> !e.StopClient?
    ensures Run(es).stopped == {}
  {
    if es != [] {
      assert es[|es| - 1] in es;
      NothingStopped(es[..|es| - 1]);
    }
  }

  /** In every run in which no client goes away the two maps are inverse to each other. */
  lemma MapsAreInverse(es: seq<Event>, k: Key, hw: nat)
    requires forall e :: e in es ==> !e.StopClient?
    ensures var w := Run(es); (k in w.ids && w.ids[k] == hw) <==> (hw in w.geofences && w.geofences[hw].key == k)
  {
    RunsKeepInv(es);
    NothingStopped(es);
  }

  /** An answered removal takes one geofence out of both maps and touches nothing else; it is dropped if the client
      has gone away meanwhile. */
  lemma RemovalIsExact(w: World, hw: nat)
    requires Inv(w)
    ensures var w' := RemoveItem(w, hw);
            (hw in w'.geofences <==> hw in w.geofences && w.geofences[hw].key !in w.ids) &&
            (forall k :: k in w'.ids ==> w'.ids[k] != hw) &&
            (forall k :: k in w.ids && w.ids[k] != hw ==> k in w'.ids && w'.ids[k] == w.ids[k]) &&
            (forall h :: h in w.geofences && h != hw ==> h in w'.geofences && w'.geofences[h] == w.geofences[h])
  {
    if hw in w.geofences && w.geofences[hw].key in w.ids {
      assert w.ids[w.geofences[hw].key] == hw;
    }
  }

  // ---------------------------------------------------------------- requests, and answers, however late

  /** The call that a request about a hardware id sends. */
  predicate Asks(e: Event, c: Call, hw: nat) {
    match e
    case RemoveGeofence(_) => c == Remove(hw)
    case PauseGeofence(_) => c == Pause(hw)
    case ResumeGeofence(_) => c == Resume(hw)
    case ModifyGeofence(_, options) => c == Modify(hw, options)
    case _ => false
  }

  /** A request about a known key sends exactly one call, for its hardware id, and one about an unknown key none; the
      addition of a geofence sends it as it is, not paused.  None of them changes the maps. */
  lemma RequestsSend(w: World, e: Event)
    requires e.RemoveGeofence? || e.PauseGeofence? || e.ResumeGeofence? || e.ModifyGeofence? || e.AddGeofence?
    ensures var w' := Step(w, e);
            w'.geofences == w.geofences && w'.ids == w.ids && w'.answered == w.answered && w'.used == w.used
    ensures e.AddGeofence? && e.fence.key !in w.asked ==>
              Step(w, e).calls == w.calls + [Add(e.fence.(paused := false))]
    ensures !e.AddGeofence? && e.key in w.ids ==>
              exists c :: Asks(e, c, w.ids[e.key]) && Step(w, e).calls == w.calls + [c]
    ensures !e.AddGeofence? && e.key !in w.ids ==> Step(w, e) == w
  {
    match e
    case RemoveGeofence(key) => assert key in w.ids ==> Asks(e, Remove(w.ids[key]), w.ids[key]);
    case PauseGeofence(key) => assert key in w.ids ==> Asks(e, Pause(w.ids[key]), w.ids[key]);
    case ResumeGeofence(key) => assert key in w.ids ==> Asks(e, Resume(w.ids[key]), w.ids[key]);
    case ModifyGeofence(key, options) => assert key in w.ids ==> Asks(e, Modify(w.ids[key], options), w.ids[key]);
    case _ =>
  }

  /** A refused call, and the pause sent again, change nothing, whatever the engine says with the answer. */
  lemma RefusalChangesNothing(w: World, call: nat, ok: bool, hw: nat)
    requires Open(w, call) && (!ok || w.calls[call].Repause?)
    ensures Step(w, Respond(call, ok, hw)) == w.(answered := w.answered + {call})
  {}

  ghost function RunFrom(w: World, es: seq<Event>): World {
    if es == [] then w else Step(RunFrom(w, es[..|es| - 1]), es[|es| - 1])
  }

  /** Calls are never taken back, and a hardware id keeps its key for life: once gone, it does not come back. */
  ghost predicate Follows(w: World, w': World) {
    |w.calls| <= |w'.calls| && w'.calls[..|w.calls|] == w.calls && w.used <= w'.used &&
    w.answered <= w'.answered &&
    forall hw :: hw in w.used && hw in w'.geofences ==> hw in w.geofences && w'.geofences[hw].key == w.geofences[hw].key
  }

  lemma StepFollows(w: World, e: Event)
    requires Inv(w)
    ensures Follows(w, Step(w, e))
  {
    if e.Respond? && Enabled(w, e) {
      RespondFollows(w, e);
    }
  }

  lemma RespondFollows(w: World, e: Event)
    requires Inv(w) && e.Respond? && Enabled(w, e)
    ensures Follows(w, Step(w, e))
  {}

  lemma {:induction false} RunFollows(w: World, es: seq<Event>)
    requires Inv(w)
    ensures Inv(RunFrom(w, es)) && Follows(w, RunFrom(w, es))
  {
    if es != [] {
      var before := RunFrom(w, es[..|es| - 1]);
      RunFollows(w, es[..|es| - 1]);
      StepKeepsInv(before, es[|es| - 1]);
      StepFollows(before, es[|es| - 1]);
    }
  }

  /** A request is made, other events happen, and then the engine accepts the call sent for it: the world before and
      after the answer. */
  ghost predicate Answers(w: World, request: Event, es: seq<Event>, hw: nat, before: World, after: World) {
    before == RunFrom(Step(w, request), es) && Enabled(before, Respond(|w.calls|, true, hw)) &&
    after == Step(before, Respond(|w.calls|, true, hw))
  }

  /** A new geofence is stored as it was given, under the engine's hardware id, and nothing else moves; until then its
      key is not known. */
  lemma AcceptedAddIsExact(w: World, fence: Geofence, es: seq<Event>, hw: nat, before: World, after: World)
    requires Inv(w) && fence.key !in w.asked && Answers(w, AddGeofence(fence), es, hw, before, after)
    ensures after.ids == before.ids[fence.key := hw] && fence.key !in before.ids && hw !in before.geofences &&
            after.geofences == before.geofences[hw := fence.(paused := false)]
  {
    var w1 := Step(w, AddGeofence(fence));
    StepKeepsInv(w, AddGeofence(fence));
    RunFollows(w1, es);
    assert w1.calls[|w.calls|] == before.calls[..|w1.calls|][|w.calls|];
    assert Adding(before, |w.calls|);
  }

  /** A change asked for by a client reaches the geofence then stored for its key, if it still is, and no other. */
  lemma AcceptedChangeIsExact(
    w: World, key: Key, options: Options, e: Event, es: seq<Event>, hw: nat, before: World, after: World)
    requires Inv(w) && key in w.ids && Answers(w, e, es, hw, before, after)
    requires e == PauseGeofence(key) || e == ResumeGeofence(key) || e == ModifyGeofence(key, options)
    ensures after.ids == before.ids &&
            if w.ids[key] in before.geofences then
              var f := before.geofences[w.ids[key]];
              f.key == key &&
              after.geofences == before.geofences[w.ids[key] :=
                if e == ModifyGeofence(key, options) then f.(options := options)
                else f.(paused := e == PauseGeofence(key))]
            else after.geofences == before.geofences
  {
    LateCall(w, e, es, key);
    ChangeAccepted(before, |w.calls|, hw);
  }

  lemma ChangeAccepted(w: World, call: nat, hw: nat)
    requires Open(w, call) && (w.calls[call].Pause? || w.calls[call].Resume? || w.calls[call].Modify?)
    ensures var c, w' := w.calls[call], Step(w, Respond(call, true, hw));
            w'.ids == w.ids &&
            w'.geofences == if c.hw in w.geofences then w.geofences[c.hw := Changed(c, w.geofences[c.hw])]
                            else w.geofences
  {}

  /** So does a removal, which takes it out of both maps, unless its client has gone away meanwhile. */
  lemma AcceptedRemovalIsExact(w: World, key: Key, es: seq<Event>, hw: nat, before: World, after: World)
    requires Inv(w) && key in w.ids && Answers(w, RemoveGeofence(key), es, hw, before, after)
    ensures if w.ids[key] in before.geofences && key in before.ids then
              before.ids[key] == w.ids[key] && after.ids == before.ids - {key} &&
              after.geofences == before.geofences - {w.ids[key]}
            else after.ids == before.ids && after.geofences == before.geofences
  {
    LateCall(w, RemoveGeofence(key), es, key);
  }

  /** A client's stop sends one removal for each of its keys; however late one is accepted, it takes that geofence out
      of the store and touches nothing else, so no later restart brings it back. */
  lemma AcceptedForgetIsExact(
    w: World, client: nat, order: seq<Key>, j: nat, es: seq<Event>, hw: nat, before: World, after: World)
    requires Inv(w) && Lists(order, KeysOf(w.ids, client)) && j < |order|
    requires before == RunFrom(Step(w, StopClient(client, order)), es)
    requires AnswersCall(before, |w.calls| + j, hw, after)
    ensures order[j] in w.ids && after.ids == before.ids && after.geofences == before.geofences - {w.ids[order[j]]}
  {
    ForgetStands(w, client, order, j, es);
    ForgetAccepted(before, |w.calls| + j, w.ids[order[j]], hw);
  }

  lemma ForgetStands(w: World, client: nat, order: seq<Key>, j: nat, es: seq<Event>)
    requires Inv(w) && Lists(order, KeysOf(w.ids, client)) && j < |order|
    ensures order[j] in w.ids
    ensures var before := RunFrom(Step(w, StopClient(client, order)), es);
            |w.calls| + j < |before.calls| && before.calls[|w.calls| + j] == Forget(w.ids[order[j]])
  {
    var w1 := Step(w, StopClient(client, order));
    ForgetSent(w, client, order, j, w1);
    RunFollows(w1, es);
    LaterCall(w1, RunFrom(w1, es), |w.calls| + j);
  }

  lemma ForgetSent(w: World, client: nat, order: seq<Key>, j: nat, w1: World)
    requires Inv(w) && Lists(order, KeysOf(w.ids, client)) && j < |order| && w1 == Step(w, StopClient(client, order))
    ensures Inv(w1) && order[j] in w.ids && |w.calls| + j < |w1.calls|
    ensures w1.calls[|w.calls| + j] == Forget(w.ids[order[j]])
  {
    assert order[j] in order;
    StopClientKeeps(w, client, order);
  }

  lemma ForgetAccepted(w: World, call: nat, gone: nat, hw: nat)
    requires Open(w, call) && w.calls[call] == Forget(gone)
    ensures var w' := Step(w, Respond(call, true, hw)); w'.ids == w.ids && w'.geofences == w.geofences - {gone}
  {}

  /** The stop itself forgets exactly the client's keys, and stores and sends nothing but those removals. */
  lemma StopForgetsKeys(w: World, client: nat, order: seq<Key>, k: Key)
    requires Lists(order, KeysOf(w.ids, client))
    ensures var w' := Step(w, StopClient(client, order));
            w'.geofences == w.geofences && |w'.calls| == |w.calls| + |order| && w'.calls[..|w.calls|] == w.calls &&
            (k in w'.ids <==> k in w.ids && k.client != client) && (k in w'.ids ==> w'.ids[k] == w.ids[k])
  {}

  /** The call sent for a request about a stored geofence stands as it was sent, and so does that geofence's key. */
  lemma LateCall(w: World, e: Event, es: seq<Event>, key: Key)
    requires Inv(w) && key in w.ids
    requires e == PauseGeofence(key) || e == ResumeGeofence(key) || e == RemoveGeofence(key) ||
             (e.ModifyGeofence? && e.key == key)
    ensures var w1, before := Step(w, e), RunFrom(Step(w, e), es);
            Inv(before) && |w.calls| < |before.calls| && |w1.calls| == |w.calls| + 1 &&
            before.calls[|w.calls|] == w1.calls[|w.calls|] && w1.calls[|w.calls|].hw == w.ids[key]
    ensures var before := RunFrom(Step(w, e), es);
            w.ids[key] in before.geofences ==> before.geofences[w.ids[key]].key == key
  {
    var w1 := Step(w, e);
    StepKeepsInv(w, e);
    RunFollows(w1, es);
    assert w1.calls[|w.calls|] == RunFrom(w1, es).calls[..|w1.calls|][|w.calls|];
  }

  // ---------------------------------------------------------------- a restart of the engine

  /** The maps are empty, and each geofence has been sent to the engine again. */
  ghost predicate Readded(w: World, order: seq<nat>, w1: World) {
    (forall hw :: hw in order ==> hw in w.geofences) &&
    w1.geofences == map[] && w1.ids == map[] && w1.used == w.used && w1.answered == w.answered &&
    w1.calls == w.calls + Readds(w.geofences, order)
  }

  lemma RestartReadds(w: World, order: seq<nat>)
    requires Inv(w) && Lists(order, w.geofences.Keys)
    ensures Inv(Step(w, Restart(order))) && Readded(w, order, Step(w, Restart(order)))
  {
    RestartKeeps(w, order);
    if w.geofences == map[] {
      NothingToList(w, order);
    }
  }

  lemma NothingToList(w: World, order: seq<nat>)
    requires Pointed(w) && Lists(order, w.geofences.Keys) && w.geofences == map[]
    ensures Readded(w, order, w)
  {
    FirstListed(order);
    assert w.ids.Keys == {};
  }

  lemma FirstListed(order: seq<nat>)
    ensures |order| > 0 ==> order[0] in order
  {}

  lemma ReaddCall(w: World, order: seq<nat>, w1: World, i: nat)
    requires CallsFit(w) && Readded(w, order, w1) && i < |order|
    ensures order[i] in w.geofences && Adding(w1, |w.calls| + i)
    ensures w1.calls[|w.calls| + i] == Add(w.geofences[order[i]])
  {
    assert order[i] in order;
  }

  /** However late the engine takes a geofence back, it is stored as not paused under the new hardware id, its key
      points there, nothing else moves, and the engine is told to pause it again exactly if it was paused. */
  lemma ReaddAcceptedIsExact(
    w: World, order: seq<nat>, i: nat, es: seq<Event>, hw: nat, before: World, after: World)
    requires AfterRestart(w, order, es, before) && i < |order| && AnswersCall(before, |w.calls| + i, hw, after)
    ensures order[i] in w.geofences
    ensures var f := w.geofences[order[i]];
            after.geofences == before.geofences[hw := f.(paused := false)] && hw !in before.geofences &&
            after.ids == before.ids[f.key := hw] && f.key !in before.ids &&
            after.calls == before.calls + if f.paused then [Repause(hw)] else []
  {
    ReaddStands(w, order, i, es, before);
  }

  /** The engine restarts, and other events happen. */
  ghost predicate AfterRestart(w: World, order: seq<nat>, es: seq<Event>, now: World) {
    Inv(w) && Lists(order, w.geofences.Keys) && now == RunFrom(Step(w, Restart(order)), es)
  }

  ghost predicate AnswersCall(w: World, call: nat, hw: nat, w': World) {
    Enabled(w, Respond(call, true, hw)) && w' == Step(w, Respond(call, true, hw))
  }

  lemma ReaddStands(w: World, order: seq<nat>, i: nat, es: seq<Event>, before: World)
    requires AfterRestart(w, order, es, before) && i < |order|
    ensures order[i] in w.geofences
    ensures var call := |w.calls| + i;
            call < |before.calls| && before.calls[call] == Add(w.geofences[order[i]]) &&
            before.geofences.Keys <= before.used &&
            (Open(before, call) ==> w.geofences[order[i]].key !in before.ids)
  {
    var w1 := Step(w, Restart(order));
    RestartReadds(w, order);
    ReaddCall(w, order, w1, i);
    RunFollows(w1, es);
    LaterCall(w1, RunFrom(w1, es), |w.calls| + i);
    assert Open(RunFrom(w1, es), |w.calls| + i) ==> Adding(RunFrom(w1, es), |w.calls| + i);
  }

  lemma LaterCall(w: World, w': World, call: nat)
    requires Follows(w, w') && call < |w.calls|
    ensures call < |w'.calls| && w'.calls[call] == w.calls[call]
  {
    assert w'.calls[..|w.calls|][call] == w'.calls[call];
  }

  /** Whatever was open is answered in any order, or not at all; requests may come in, but what is sent for them is not
      accepted yet; no client goes away, and the engine does not restart. */
  ghost predicate Settling(w: World, es: seq<Event>) {
    es != [] ==>
      Settling(w, es[..|es| - 1]) && LeavesBe(w, RunFrom(w, es[..|es| - 1]), es[|es| - 1])
  }

  ghost predicate LeavesBe(w: World, now: World, e: Event) {
    !e.StopClient? && !e.Restart? &&
    (e.Respond? && e.ok && |w.calls| <= e.call < |now.calls| ==> now.calls[e.call].Repause?)
  }

  ghost predicate Accepts(now: World, e: Event, call: nat) {
    e.Respond? && e.call == call && e.ok && Enabled(now, e)
  }

  /** The hardware id with which a call has been accepted. */
  ghost function AcceptedAs(w: World, es: seq<Event>, call: nat): Option<nat> {
    if es == [] then None
    else if Accepts(RunFrom(w, es[..|es| - 1]), es[|es| - 1], call) then Some(es[|es| - 1].hw)
    else AcceptedAs(w, es[..|es| - 1], call)
  }

  /** An addition open at first was accepted with this hardware id. */
  ghost predicate Took(w: World, es: seq<Event>, call: nat, hw: nat) {
    Adding(w, call) && AcceptedAs(w, es, call) == Some(hw)
  }

  ghost predicate TookSome(w: World, es: seq<Event>, hw: nat) {
    exists call: nat :: Took(w, es, call, hw)
  }

  ghost predicate StoredAs(now: World, fence: Geofence, hw: nat) {
    hw in now.geofences && now.geofences[hw] == fence.(paused := false) &&
    fence.key in now.ids && now.ids[fence.key] == hw
  }

  /** Stored is exactly what was accepted. */
  ghost predicate Settled(w: World, es: seq<Event>, now: World) {
    (forall call: nat, hw :: Took(w, es, call, hw) ==>
       call in now.answered && StoredAs(now, w.calls[call].fence, hw)) &&
    forall hw :: hw in now.geofences ==> TookSome(w, es, hw)
  }

  lemma OthersDoNotMove(w: World, now: World, e: Event)
    requires Inv(w) && Inv(now) && Follows(w, now) && w.geofences == map[] && LeavesBe(w, now, e)
    requires Enabled(now, e) && !(e.Respond? && e.ok && now.calls[e.call].Add?)
    ensures Step(now, e).geofences == now.geofences && Step(now, e).ids == now.ids
    ensures now.answered <= Step(now, e).answered
  {
    if e.Respond? && e.ok && e.call < |w.calls| {
      LaterCall(w, now, e.call);
      EarlierDoesNotMove(w, now, e);
    }
  }

  lemma EarlierDoesNotMove(w: World, now: World, e: Event)
    requires CallsFit(w) && Follows(w, now) && w.geofences == map[] && Enabled(now, e)
    requires e.Respond? && e.ok && e.call < |w.calls| && now.calls[e.call] == w.calls[e.call] && !w.calls[e.call].Add?
    ensures Step(now, e).geofences == now.geofences && Step(now, e).ids == now.ids
  {
    assert w.calls[e.call].hw in w.used;
  }

  lemma TookOneMore(w: World, es: seq<Event>, call: nat, hw: nat)
    requires es != []
    ensures var before, e := RunFrom(w, es[..|es| - 1]), es[|es| - 1];
            Took(w, es, call, hw) <==>
            if Adding(w, call) && Accepts(before, e, call) then hw == e.hw else Took(w, es[..|es| - 1], call, hw)
  {}

  lemma NothingTaken(w: World, es: seq<Event>)
    requires es != [] && Settled(w, es[..|es| - 1], RunFrom(w, es[..|es| - 1]))
    requires var before, e, now := RunFrom(w, es[..|es| - 1]), es[|es| - 1], RunFrom(w, es);
             (forall call: nat :: Adding(w, call) ==> !Accepts(before, e, call)) &&
             now.geofences == before.geofences && now.ids == before.ids && before.answered <= now.answered
    ensures Settled(w, es, RunFrom(w, es))
  {
    var init, now := es[..|es| - 1], RunFrom(w, es);
    forall call: nat, hw
      ensures Took(w, es, call, hw) <==> Took(w, init, call, hw)
    {
      TookOneMore(w, es, call, hw);
    }
    forall hw | hw in now.geofences
      ensures TookSome(w, es, hw)
    {
      assert TookSome(w, init, hw);
      var call: nat :| Took(w, init, call, hw);
      assert Took(w, es, call, hw);
    }
  }

  lemma OneMoreTaken(w: World, es: seq<Event>)
    requires es != [] && Settled(w, es[..|es| - 1], RunFrom(w, es[..|es| - 1]))
    requires Inv(w) && Follows(w, RunFrom(w, es[..|es| - 1])) && Inv(RunFrom(w, es[..|es| - 1]))
    requires var before, e := RunFrom(w, es[..|es| - 1]), es[|es| - 1];
             e.Respond? && Accepts(before, e, e.call) && e.call < |w.calls| && w.calls[e.call].Add?
    ensures Settled(w, es, RunFrom(w, es))
  {
    var init, e := es[..|es| - 1], es[|es| - 1];
    var before, now := RunFrom(w, init), RunFrom(w, es);
    LaterCall(w, before, e.call);
    TookOneMore(w, es, e.call, e.hw);
    assert Took(w, es, e.call, e.hw);
    forall call: nat, hw | Took(w, es, call, hw)
      ensures call in now.answered && StoredAs(now, w.calls[call].fence, hw)
    {
      TookOneMore(w, es, call, hw);
    }
    forall hw | hw in now.geofences
      ensures TookSome(w, es, hw)
    {
      if hw != e.hw {
        assert TookSome(w, init, hw);
        var call: nat :| Took(w, init, call, hw);
        TookOneMore(w, es, call, hw);
        assert Took(w, es, call, hw);
      }
    }
  }

  /** From empty maps, in whatever order answers come, exactly what was accepted is stored. */
  lemma {:induction false} RunsSettle(w: World, es: seq<Event>)
    requires Inv(w) && w.geofences == map[] && w.ids == map[] && Settling(w, es)
    ensures Settled(w, es, RunFrom(w, es))
  {
    if es != [] {
      var init, e := es[..|es| - 1], es[|es| - 1];
      var before := RunFrom(w, init);
      RunsSettle(w, init);
      RunFollows(w, init);
      if Enabled(before, e) && e.Respond? && e.ok && before.calls[e.call].Add? {
        LaterCall(w, before, e.call);
        OneMoreTaken(w, es);
      } else {
        if Enabled(before, e) {
          OthersDoNotMove(w, before, e);
        }
        NothingTaken(w, es);
      }
    }
  }

  /** The engine restarts and has taken back all geofences, with these hardware ids. */
  ghost predicate TakenBack(w: World, order: seq<nat>, es: seq<Event>, hws: seq<nat>) {
    Inv(w) && Lists(order, w.geofences.Keys) && |hws| == |order| && Settling(Step(w, Restart(order)), es) &&
    forall i :: 0 <= i < |hws| ==> AcceptedAs(Step(w, Restart(order)), es, |w.calls| + i) == Some(hws[i])
  }

  /** A client asked for a geofence with this key before the restart, and the engine had not answered. */
  ghost predicate Awaited(w: World, key: Key) {
    exists call: nat :: Adding(w, call) && w.calls[call].fence.key == key
  }

  /** Then each is stored under its new hardware id, not paused, and its key points there; anything else stored was
      awaited before the restart, and every key points to a stored geofence of that key. */
  lemma RestartRestores(w: World, order: seq<nat>, es: seq<Event>, hws: seq<nat>)
    requires TakenBack(w, order, es, hws)
    ensures forall i :: 0 <= i < |order| ==> order[i] in w.geofences
    ensures var w' := RunFrom(Step(w, Restart(order)), es);
            (forall i :: 0 <= i < |order| ==> StoredAs(w', w.geofences[order[i]], hws[i])) &&
            (forall hw :: hw in w'.geofences && hw !in hws ==> Awaited(w, w'.geofences[hw].key)) &&
            (forall hw :: hw in w'.geofences ==> !w'.geofences[hw].paused) && Inv(w')
  {
    var w1 := Step(w, Restart(order));
    var w' := RunFrom(w1, es);
    RestartReadds(w, order);
    RunFollows(w1, es);
    forall i | 0 <= i < |order|
      ensures order[i] in w.geofences && StoredAs(w', w.geofences[order[i]], hws[i])
    {
      OldStored(w, order, es, hws, i);
    }
    forall hw | hw in w'.geofences
      ensures !w'.geofences[hw].paused && (hw !in hws ==> Awaited(w, w'.geofences[hw].key))
    {
      OldOrAwaited(w, order, es, hws, hw);
    }
  }

  lemma OldStored(w: World, order: seq<nat>, es: seq<Event>, hws: seq<nat>, i: nat)
    requires TakenBack(w, order, es, hws) && i < |order|
    ensures order[i] in w.geofences
    ensures StoredAs(RunFrom(Step(w, Restart(order)), es), w.geofences[order[i]], hws[i])
  {
    var w1 := Step(w, Restart(order));
    RestartReadds(w, order);
    RunsSettle(w1, es);
    ReaddCall(w, order, w1, i);
    assert Took(w1, es, |w.calls| + i, hws[i]);
  }

  lemma OldOrAwaited(w: World, order: seq<nat>, es: seq<Event>, hws: seq<nat>, hw: nat)
    requires TakenBack(w, order, es, hws) && hw in RunFrom(Step(w, Restart(order)), es).geofences
    ensures var f := RunFrom(Step(w, Restart(order)), es).geofences[hw];
            !f.paused && (hw !in hws ==> Awaited(w, f.key))
  {
    var w1 := Step(w, Restart(order));
    RestartReadds(w, order);
    RunsSettle(w1, es);
    assert TookSome(w1, es, hw);
    var call: nat :| Took(w1, es, call, hw);
    assert StoredAs(RunFrom(w1, es), w1.calls[call].fence, hw);
    if call >= |w.calls| {
      assert hw == hws[call - |w.calls|];
    }
  }

  /** So the restart leaves the keys as they were, but for those awaited before, exactly if no stopped client's geofence
      was still stored. */
  lemma RestartKeepsKeysExactly(w: World, order: seq<nat>, es: seq<Event>, hws: seq<nat>)
    requires TakenBack(w, order, es, hws)
    ensures var ids := RunFrom(Step(w, Restart(order)), es).ids;
            (forall k :: !Awaited(w, k) ==> (k in ids <==> k in w.ids)) <==>
            forall hw :: hw in w.geofences ==> w.geofences[hw].key in w.ids
  {
    var w' := RunFrom(Step(w, Restart(order)), es);
    RestartRestores(w, order, es, hws);
    forall k | !Awaited(w, k)
      ensures k in w'.ids <==> exists hw :: hw in w.geofences && w.geofences[hw].key == k
    {
      if k in w'.ids {
        var i :| 0 <= i < |hws| && hws[i] == w'.ids[k];
        assert order[i] in w.geofences && w.geofences[order[i]].key == k;
      }
      if hw :| hw in w.geofences && w.geofences[hw].key == k {
        var i :| 0 <= i < |order| && order[i] == hw;
        assert StoredAs(w', w.geofences[order[i]], hws[i]);
      }
    }
    forall hw | hw in w.geofences
      ensures !Awaited(w, w.geofences[hw].key)
    {}
  }

  /** It leaves them paused or not as they were exactly if none was paused. */
  lemma RestartKeepsPausedExactly(w: World, order: seq<nat>, es: seq<Event>, hws: seq<nat>)
    requires TakenBack(w, order, es, hws)
    ensures forall i :: 0 <= i < |order| ==>
              order[i] in w.geofences && hws[i] in RunFrom(Step(w, Restart(order)), es).geofences
    ensures var geofences := RunFrom(Step(w, Restart(order)), es).geofences;
            (forall i :: 0 <= i < |order| ==> geofences[hws[i]].paused == w.geofences[order[i]].paused) <==>
            forall hw :: hw in w.geofences ==> !w.geofences[hw].paused
  {
    var geofences := RunFrom(Step(w, Restart(order)), es).geofences;
    RestartRestores(w, order, es, hws);
    forall i | 0 <= i < |order|
      ensures !geofences[hws[i]].paused
    {
      assert StoredAs(RunFrom(Step(w, Restart(order)), es), w.geofences[order[i]], hws[i]);
    }
    forall hw | hw in w.geofences
      ensures exists i :: 0 <= i < |order| && order[i] == hw
    {
      assert hw in order;
    }
  }

  // ---------------------------------------------------------------- the pauses sent again

  /** A paused geofence was accepted with this hardware id. */
  ghost predicate TookPaused(w: World, es: seq<Event>, hw: nat) {
    exists call: nat :: Took(w, es, call, hw) && w.calls[call].fence.paused
  }

  /** A paused geofence is accepted, for an addition open at first. */
  ghost predicate TakesPaused(w: World, now: World, e: Event) {
    e.Respond? && Adding(w, e.call) && w.calls[e.call].fence.paused && Accepts(now, e, e.call)
  }

  ghost predicate Sent(calls: seq<Call>, first: nat, c: Call) {
    exists i :: first <= i < |calls| && calls[i] == c
  }

  /** The pauses sent again since then are exactly those of the paused geofences accepted, one for each. */
  ghost predicate PausedAgain(w: World, es: seq<Event>, now: World) {
    (forall i :: |w.calls| <= i < |now.calls| && now.calls[i].Repause? ==> TookPaused(w, es, now.calls[i].hw)) &&
    (forall hw :: TookPaused(w, es, hw) ==> Sent(now.calls, |w.calls|, Repause(hw))) &&
    forall i, j :: |w.calls| <= i < j < |now.calls| && now.calls[i].Repause? ==> now.calls[i] != now.calls[j]
  }

  lemma TookPausedOneMore(w: World, es: seq<Event>, hw: nat)
    requires Inv(w) && es != []
    ensures var before, e := RunFrom(w, es[..|es| - 1]), es[|es| - 1];
            TookPaused(w, es, hw) <==>
            TookPaused(w, es[..|es| - 1], hw) ||
            (TakesPaused(w, before, e) && hw == e.hw)
  {
    var init, e := es[..|es| - 1], es[|es| - 1];
    var before := RunFrom(w, init);
    RunFollows(w, init);
    if call: nat :| Took(w, es, call, hw) && w.calls[call].fence.paused {
      TookOneMore(w, es, call, hw);
    }
    if call: nat :| Took(w, init, call, hw) && w.calls[call].fence.paused {
      TookOneMore(w, es, call, hw);
      TookIsAnswered(w, init, call, hw);
      assert Took(w, es, call, hw);
    }
    if TakesPaused(w, before, e) && hw == e.hw {
      TookOneMore(w, es, e.call, hw);
      assert Took(w, es, e.call, hw);
    }
  }

  lemma {:induction false} TookIsAnswered(w: World, es: seq<Event>, call: nat, hw: nat)
    requires Inv(w) && Took(w, es, call, hw)
    ensures call in RunFrom(w, es).answered && hw !in w.used
  {
    var init := es[..|es| - 1];
    RunFollows(w, init);
    StepFollows(RunFrom(w, init), es[|es| - 1]);
    TookOneMore(w, es, call, hw);
    if Accepts(RunFrom(w, init), es[|es| - 1], call) {
      LaterCall(w, RunFrom(w, init), call);
    } else {
      TookIsAnswered(w, init, call, hw);
    }
  }

  /** What one event adds to the calls. */
  lemma NewCalls(w: World, now: World, e: Event)
    requires Inv(w) && Inv(now) && Follows(w, now) && LeavesBe(w, now, e)
    ensures var after := Step(now, e);
            |now.calls| <= |after.calls| && after.calls[..|now.calls|] == now.calls &&
            if TakesPaused(w, now, e) then
              after.calls == now.calls + [Repause(e.hw)]
            else forall i :: |now.calls| <= i < |after.calls| ==> !after.calls[i].Repause?
  {
    if e.Respond? {
      NewPause(w, now, e);
    }
  }

  lemma NewPause(w: World, now: World, e: Event)
    requires Inv(w) && Inv(now) && Follows(w, now) && LeavesBe(w, now, e) && e.Respond?
    ensures Step(now, e).calls == now.calls +
            if TakesPaused(w, now, e) then [Repause(e.hw)] else []
  {
    if e.call < |w.calls| {
      LaterCall(w, now, e.call);
    }
  }

  lemma PausedNoMore(w: World, es: seq<Event>)
    requires Inv(w) && es != [] && Settling(w, es) && PausedAgain(w, es[..|es| - 1], RunFrom(w, es[..|es| - 1]))
    requires var e := es[|es| - 1];
             !TakesPaused(w, RunFrom(w, es[..|es| - 1]), e)
    ensures PausedAgain(w, es, RunFrom(w, es))
  {
    var init, e := es[..|es| - 1], es[|es| - 1];
    var before, now := RunFrom(w, init), RunFrom(w, es);
    RunFollows(w, init);
    NewCalls(w, before, e);
    forall hw
      ensures TookPaused(w, es, hw) <==> TookPaused(w, init, hw)
    {
      TookPausedOneMore(w, es, hw);
    }
    assert forall i :: 0 <= i < |before.calls| ==> now.calls[..|before.calls|][i] == now.calls[i];
    forall hw | TookPaused(w, es, hw)
      ensures Sent(now.calls, |w.calls|, Repause(hw))
    {
      var i :| |w.calls| <= i < |before.calls| && before.calls[i] == Repause(hw);
      assert now.calls[i] == Repause(hw);
    }
  }

  lemma PausedOneMore(w: World, es: seq<Event>)
    requires Inv(w) && es != [] && Settling(w, es) && PausedAgain(w, es[..|es| - 1], RunFrom(w, es[..|es| - 1]))
    requires var e := es[|es| - 1];
             TakesPaused(w, RunFrom(w, es[..|es| - 1]), e)
    ensures PausedAgain(w, es, RunFrom(w, es))
  {
    var init, e := es[..|es| - 1], es[|es| - 1];
    var before, now := RunFrom(w, init), RunFrom(w, es);
    RunFollows(w, init);
    NewCalls(w, before, e);
    LaterCall(w, before, e.call);
    TookPausedOneMore(w, es, e.hw);
    assert e.hw !in before.used && now.calls == before.calls + [Repause(e.hw)];
    forall i | |w.calls| <= i < |now.calls| && now.calls[i].Repause?
      ensures TookPaused(w, es, now.calls[i].hw)
    {
      TookPausedOneMore(w, es, now.calls[i].hw);
    }
    forall hw | TookPaused(w, es, hw)
      ensures Sent(now.calls, |w.calls|, Repause(hw))
    {
      TookPausedOneMore(w, es, hw);
      SentAfterwards(before.calls, |w.calls|, Repause(hw), Repause(e.hw));
    }
  }

  lemma SentAfterwards(calls: seq<Call>, first: nat, c: Call, last: Call)
    requires first <= |calls| && (Sent(calls, first, c) || c == last)
    ensures Sent(calls + [last], first, c)
  {
    if Sent(calls, first, c) {
      var i :| first <= i < |calls| && calls[i] == c;
      assert (calls + [last])[i] == c;
    } else {
      assert (calls + [last])[|calls|] == c;
    }
  }

  lemma {:induction false} RunsPauseAgain(w: World, es: seq<Event>)
    requires Inv(w) && Settling(w, es)
    ensures PausedAgain(w, es, RunFrom(w, es))
  {
    if es != [] {
      var e := es[|es| - 1];
      RunsPauseAgain(w, es[..|es| - 1]);
      if TakesPaused(w, RunFrom(w, es[..|es| - 1]), e) {
        PausedOneMore(w, es);
      } else {
        PausedNoMore(w, es);
      }
    }
  }

  lemma TookOnce(w: World, es: seq<Event>, a: nat, b: nat, hw: nat)
    requires Inv(w) && w.geofences == map[] && w.ids == map[] && Settling(w, es)
    requires Took(w, es, a, hw) && Took(w, es, b, hw)
    ensures a == b
  {
    RunsSettle(w, es);
    assert StoredAs(RunFrom(w, es), w.calls[a].fence, hw) && StoredAs(RunFrom(w, es), w.calls[b].fence, hw);
  }

  lemma PauseSentLate(w: World, es: seq<Event>, call: nat, hw: nat, i: nat)
    requires Inv(w) && Took(w, es, call, hw)
    requires i < |RunFrom(w, es).calls| && RunFrom(w, es).calls[i] == Repause(hw)
    ensures i >= |w.calls|
  {
    RunFollows(w, es);
    TookIsAnswered(w, es, call, hw);
    if i < |w.calls| {
      LaterCall(w, RunFrom(w, es), i);
    }
  }

  lemma PauseSentExactly(w: World, es: seq<Event>, call: nat, hw: nat)
    requires Inv(w) && w.geofences == map[] && w.ids == map[] && Settling(w, es) && Took(w, es, call, hw)
    ensures Repause(hw) in RunFrom(w, es).calls <==> w.calls[call].fence.paused
  {
    var calls := RunFrom(w, es).calls;
    RunsPauseAgain(w, es);
    if w.calls[call].fence.paused {
      assert TookPaused(w, es, hw);
    }
    if i :| 0 <= i < |calls| && calls[i] == Repause(hw) {
      PauseSentLate(w, es, call, hw, i);
      assert TookPaused(w, es, hw);
      var other: nat :| Took(w, es, other, hw) && w.calls[other].fence.paused;
      TookOnce(w, es, other, call, hw);
    }
  }

  /** When the engine has taken back all geofences it has been told to pause again, once, exactly those that were
      paused, under their new hardware ids. */
  lemma RestartRepauses(w: World, order: seq<nat>, es: seq<Event>, hws: seq<nat>)
    requires TakenBack(w, order, es, hws)
    ensures forall i :: 0 <= i < |order| ==>
              order[i] in w.geofences &&
              (Repause(hws[i]) in RunFrom(Step(w, Restart(order)), es).calls <==> w.geofences[order[i]].paused)
    ensures var first, calls := |w.calls| + |order|, RunFrom(Step(w, Restart(order)), es).calls;
            forall a, b :: first <= a < b < |calls| && calls[a].Repause? ==> calls[a] != calls[b]
  {
    var w1 := Step(w, Restart(order));
    RestartReadds(w, order);
    RunsPauseAgain(w1, es);
    forall i | 0 <= i < |order|
      ensures order[i] in w.geofences && (Repause(hws[i]) in RunFrom(w1, es).calls <==> w.geofences[order[i]].paused)
    {
      RepausedExactly(w, order, es, hws, i);
    }
  }

  lemma RepausedExactly(w: World, order: seq<nat>, es: seq<Event>, hws: seq<nat>, i: nat)
    requires TakenBack(w, order, es, hws) && i < |order|
    ensures order[i] in w.geofences
    ensures Repause(hws[i]) in RunFrom(Step(w, Restart(order)), es).calls <==> w.geofences[order[i]].paused
  {
    var w1 := Step(w, Restart(order));
    RestartReadds(w, order);
    ReaddCall(w, order, w1, i);
    assert Took(w1, es, |w.calls| + i, hws[i]);
    PauseSentExactly(w1, es, |w.calls| + i, hws[i]);
  }

  /** They are stored as not paused all the same, so after a second restart none of them is paused again, in whatever
      order the engine takes them back. */
  lemma SecondRestartResumes(
    w: World, order: seq<nat>, es: seq<Event>, hws: seq<nat>, next: seq<nat>, more: seq<Event>, j: nat, hw: nat)
    requires TakenBack(w, order, es, hws)
    requires var w' := RunFrom(Step(w, Restart(order)), es);
             Lists(next, w'.geofences.Keys) && Settling(Step(w', Restart(next)), more) && j < |next| &&
             AcceptedAs(Step(w', Restart(next)), more, |w'.calls| + j) == Some(hw)
    ensures var w'' := RunFrom(Step(RunFrom(Step(w, Restart(order)), es), Restart(next)), more);
            hw in w''.geofences && !w''.geofences[hw].paused && Repause(hw) !in w''.calls
  {
    var w' := RunFrom(Step(w, Restart(order)), es);
    RestartRestores(w, order, es, hws);
    UnpausedStays(w', next, more, j, hw);
  }

  /** A geofence stored as not paused is not paused again. */
  lemma UnpausedStays(w: World, order: seq<nat>, es: seq<Event>, i: nat, hw: nat)
    requires Inv(w) && Lists(order, w.geofences.Keys) && Settling(Step(w, Restart(order)), es)
    requires forall h :: h in w.geofences ==> !w.geofences[h].paused
    requires i < |order| && AcceptedAs(Step(w, Restart(order)), es, |w.calls| + i) == Some(hw)
    ensures var w' := RunFrom(Step(w, Restart(order)), es);
            hw in w'.geofences && !w'.geofences[hw].paused && Repause(hw) !in w'.calls
  {
    var w1 := Step(w, Restart(order));
    var w' := RunFrom(w1, es);
    RestartReadds(w, order);
    ReaddCall(w, order, w1, i);
    assert Took(w1, es, |w.calls| + i, hw);
    RunsSettle(w1, es);
    PauseSentExactly(w1, es, |w.calls| + i, hw);
  }

  /** A geofence is added and confirmed. */
  lemma AddOne(f: Geofence, hw: nat)
    requires !f.paused
    ensures Step(Step(Initial, AddGeofence(f)), Respond(0, true, hw)) ==
            World(map[hw := f], map[f.key := hw], [Add(f)], {0}, {hw}, {f.key}, {})
  {
    var w1 := World(map[], map[], [Add(f)], {}, {}, {f.key}, {});
    assert Step(Initial, AddGeofence(f)) == w1;
  }

  /** Its client goes away. */
  lemma StopOne(f: Geofence, hw: nat, w: World)
    requires w.geofences == map[hw := f] && w.ids == map[f.key := hw]
    ensures var w' := Step(w, StopClient(f.key.client, [f.key]));
            w' == w.(ids := map[], calls := w.calls + [Forget(hw)], stopped := w.stopped + {f.key})
  {
    assert KeysOf(w.ids, f.key.client) == {f.key};
    assert Forgets(w.ids, [f.key]) == [Forget(hw)];
  }

  /** The engine restarts and takes the one stored geofence back. */
  lemma RestartOne(f: Geofence, hw: nat, again: nat, w: World)
    requires w.geofences == map[hw := f] && again !in w.used && |w.calls| !in w.answered
    ensures Step(Step(w, Restart([hw])), Respond(|w.calls|, true, again)) ==
            World(map[again := f.(paused := false)], map[f.key := again],
                  w.calls + [Add(f)] + (if f.paused then [Repause(again)] else []),
                  w.answered + {|w.calls|}, w.used + {again}, w.asked, w.stopped)
  {
    assert Readds(w.geofences, [hw]) == [Add(f)];
    var w1 := Step(w, Restart([hw]));
    assert w1 == w.(geofences := map[], ids := map[], calls := w.calls + [Add(f)]);
    assert Enabled(w1, Respond(|w.calls|, true, again));
  }

  /** A client adds a geofence and pauses it, and the engine restarts twice: after the second restart the geofence is
      stored as it was added, and the engine has not been told to pause it. */
  lemma PausedGeofenceResumes(f: Geofence, h0: nat, h1: nat, h2: nat)
    requires !f.paused && h0 != h1 && h0 != h2 && h1 != h2
    ensures var es := [AddGeofence(f), Respond(0, true, h0), PauseGeofence(f.key), Respond(1, true, 0),
                       Restart([h0]), Respond(2, true, h1), Restart([h1]), Respond(4, true, h2)];
            Run(es[..4]).geofences == map[h0 := f.(paused := true)] && Repause(h1) in Run(es[..6]).calls &&
            Run(es).geofences == map[h2 := f] && Repause(h2) !in Run(es).calls
  {
    var es := [AddGeofence(f), Respond(0, true, h0), PauseGeofence(f.key), Respond(1, true, 0),
               Restart([h0]), Respond(2, true, h1), Restart([h1]), Respond(4, true, h2)];
    ResumesStepByStep(f, h0, h1, h2, es);
  }

  lemma ResumesStepByStep(f: Geofence, h0: nat, h1: nat, h2: nat, es: seq<Event>)
    requires !f.paused && h0 != h1 && h0 != h2 && h1 != h2 && |es| == 8
    requires es[0] == AddGeofence(f) && es[1] == Respond(0, true, h0)
    requires es[2] == PauseGeofence(f.key) && es[3] == Respond(1, true, 0)
    requires es[4] == Restart([h0]) && es[5] == Respond(2, true, h1)
    requires es[6] == Restart([h1]) && es[7] == Respond(4, true, h2)
    ensures Run(es[..4]).geofences == map[h0 := f.(paused := true)] && Repause(h1) in Run(es[..6]).calls &&
            Run(es).geofences == map[h2 := f] && Repause(h2) !in Run(es).calls
  {
    PausedThenRestarted(f, h0, h1, es);
    assert Run(es[..6]).calls[3] == Repause(h1);
    LastRestart(es, f, h1, h2);
  }

  lemma LastRestart(es: seq<Event>, f: Geofence, h1: nat, h2: nat)
    requires !f.paused && |es| == 8 && es[6] == Restart([h1]) && es[7] == Respond(|Run(es[..6]).calls|, true, h2)
    requires var w := Run(es[..6]);
             w.geofences == map[h1 := f] && h2 !in w.used && |w.calls| !in w.answered && Repause(h2) !in w.calls
    ensures Run(es).geofences == map[h2 := f] && Repause(h2) !in Run(es).calls
  {
    RestartTwoSteps(es, 6, f, h1, h2);
    assert es[..8] == es;
  }

  lemma PausedThenRestarted(f: Geofence, h0: nat, h1: nat, es: seq<Event>)
    requires !f.paused && h0 != h1 && |es| >= 6
    requires es[0] == AddGeofence(f) && es[1] == Respond(0, true, h0)
    requires es[2] == PauseGeofence(f.key) && es[3] == Respond(1, true, 0)
    requires es[4] == Restart([h0]) && es[5] == Respond(2, true, h1)
    ensures var g := f.(paused := true);
            Run(es[..4]).geofences == map[h0 := g] &&
            Run(es[..6]) == World(map[h1 := f], map[f.key := h1], [Add(f), Pause(h0), Add(g), Repause(h1)], {0, 1, 2},
                                  {h0, h1}, {f.key}, {})
  {
    AddThenPause(f, h0, es);
    RestartTwoSteps(es, 4, f.(paused := true), h0, h1);
  }

  lemma AddThenPause(f: Geofence, hw: nat, es: seq<Event>)
    requires !f.paused && |es| >= 4 && es[0] == AddGeofence(f) && es[1] == Respond(0, true, hw)
    requires es[2] == PauseGeofence(f.key) && es[3] == Respond(1, true, 0)
    ensures Run(es[..4]) == World(map[hw := f.(paused := true)], map[f.key := hw], [Add(f), Pause(hw)], {0, 1}, {hw},
                                  {f.key}, {})
  {
    AddTwoSteps(f, hw, es);
    PauseTwoSteps(es, 2, f, hw);
  }

  lemma AddTwoSteps(f: Geofence, hw: nat, es: seq<Event>)
    requires !f.paused && |es| >= 2 && es[0] == AddGeofence(f) && es[1] == Respond(0, true, hw)
    ensures Run(es[..2]) == World(map[hw := f], map[f.key := hw], [Add(f)], {0}, {hw}, {f.key}, {})
  {
    TwoSteps(es, 0);
    AddOne(f, hw);
  }

  lemma PauseTwoSteps(es: seq<Event>, k: nat, f: Geofence, hw: nat)
    requires k + 1 < |es| && es[k] == PauseGeofence(f.key) && es[k + 1] == Respond(|Run(es[..k]).calls|, true, 0)
    requires var w := Run(es[..k]);
             w.geofences == map[hw := f] && w.ids == map[f.key := hw] && |w.calls| !in w.answered
    ensures var w := Run(es[..k]);
            Run(es[..k + 2]) == w.(geofences := map[hw := f.(paused := true)], calls := w.calls + [Pause(hw)],
                                   answered := w.answered + {|w.calls|})
  {
    TwoSteps(es, k);
  }

  lemma RestartTwoSteps(es: seq<Event>, k: nat, f: Geofence, hw: nat, again: nat)
    requires k + 1 < |es| && es[k] == Restart([hw]) && es[k + 1] == Respond(|Run(es[..k]).calls|, true, again)
    requires var w := Run(es[..k]); w.geofences == map[hw := f] && again !in w.used && |w.calls| !in w.answered
    ensures var w := Run(es[..k]);
            Run(es[..k + 2]) == World(map[again := f.(paused := false)], map[f.key := again],
                                      w.calls + [Add(f)] + (if f.paused then [Repause(again)] else []),
                                      w.answered + {|w.calls|}, w.used + {again}, w.asked, w.stopped)
  {
    TwoSteps(es, k);
    RestartOne(f, hw, again, Run(es[..k]));
  }

  lemma TwoSteps(es: seq<Event>, k: nat)
    requires k + 1 < |es|
    ensures Run(es[..k + 2]) == Step(Step(Run(es[..k]), es[k]), es[k + 1])
    ensures k == 0 ==> Run(es[..k]) == Initial
  {
    RunStep(es, k);
    RunStep(es, k + 1);
  }

  /** A client adds a geofence and goes away; the engine restarts before it has confirmed the removal: the geofence is
      back, for a client that does not exist. */
  lemma StoppedClientReturns(f: Geofence, hw: nat, again: nat)
    requires hw != again && !f.paused
    ensures var w := Run([AddGeofence(f), Respond(0, true, hw), StopClient(f.key.client, [f.key]),
                          Restart([hw]), Respond(2, true, again)]);
            f.key in w.stopped && f.key in w.ids && w.ids[f.key] == again && again in w.geofences
  {
    StoppedStepByStep([AddGeofence(f), Respond(0, true, hw), StopClient(f.key.client, [f.key]), Restart([hw]),
                       Respond(2, true, again)], f, hw, again);
  }

  lemma StoppedStepByStep(es: seq<Event>, f: Geofence, hw: nat, again: nat)
    requires hw != again && !f.paused && |es| == 5 && es[0] == AddGeofence(f) && es[1] == Respond(0, true, hw)
    requires es[2] == StopClient(f.key.client, [f.key]) && es[3] == Restart([hw]) && es[4] == Respond(2, true, again)
    ensures var w := Run(es);
            f.key in w.stopped && f.key in w.ids && w.ids[f.key] == again && again in w.geofences
  {
    StopsThird(es, f, hw);
    RestartTwoSteps(es, 3, f, hw, again);
    assert es[..5] == es;
  }

  lemma StopsThird(es: seq<Event>, f: Geofence, hw: nat)
    requires !f.paused && |es| >= 3 && es[0] == AddGeofence(f) && es[1] == Respond(0, true, hw)
    requires es[2] == StopClient(f.key.client, [f.key])
    ensures Run(es[..3]) == World(map[hw := f], map[], [Add(f), Forget(hw)], {0}, {hw}, {f.key}, {f.key})
  {
    AddTwoSteps(f, hw, es);
    RunStep(es, 2);
    StopOne(f, hw, Run(es[..2]));
  }

  lemma RunStep(es: seq<Event>, k: nat)
    requires k < |es|
    ensures Run(es[..k + 1]) == Step(Run(es[..k]), es[k])
  {
    assert es[..k + 1][..k] == es[..k];
  }

  // ---------------------------------------------------------------- breaches

  /** The ids a client is told of: those of its geofences among the first `n` that were breached. */
  function Breached(geofences: map<nat, Geofence>, hwIds: seq<nat>, n: nat, client: nat): seq<nat>
    requires n <= |hwIds|
  {
    if n == 0 then []
    else
      var rest, hw := Breached(geofences, hwIds, n - 1, client), hwIds[n - 1];
      if hw in geofences && geofences[hw].key.client == client then rest + [geofences[hw].key.id] else rest
  }

  lemma {:induction false} BreachedMembers(geofences: map<nat, Geofence>, hwIds: seq<nat>, n: nat, client: nat, id: nat)
    requires n <= |hwIds|
    ensures id in Breached(geofences, hwIds, n, client) <==>
            exists i :: 0 <= i < n && hwIds[i] in geofences && geofences[hwIds[i]].key == Key(client, id)
  {
    if n > 0 {
      BreachedMembers(geofences, hwIds, n - 1, client, id);
    }
  }

  predicate Hits(geofences: map<nat, Geofence>, hw: nat, client: nat) {
    hw in geofences && geofences[hw].key.client == client
  }

  /** They are those of the client's hardware ids in the report, in its order, each as often as it is reported. */
  lemma {:induction false} BreachedInOrder(geofences: map<nat, Geofence>, hwIds: seq<nat>, n: nat, client: nat)
    returns (at: seq<nat>)
    requires n <= |hwIds|
    ensures var ids := Breached(geofences, hwIds, n, client);
            |ids| == |at| && (forall k :: 0 <= k < |at| ==>
              at[k] < n && Hits(geofences, hwIds[at[k]], client) && ids[k] == geofences[hwIds[at[k]]].key.id) &&
            (forall j, k :: 0 <= j < k < |at| ==> at[j] < at[k]) &&
            forall i :: 0 <= i < n && Hits(geofences, hwIds[i], client) ==> i in at
  {
    at := [];
    if n > 0 {
      at := BreachedInOrder(geofences, hwIds, n - 1, client);
      if Hits(geofences, hwIds[n - 1], client) {
        at := at + [n - 1];
      }
    }
  }

  /** In every run in which no client goes away a breach is told to a client under exactly the ids it added the
      breached geofences with. */
  lemma BreachReachesOwner(es: seq<Event>, hwIds: seq<nat>, client: nat, id: nat)
    requires forall e :: e in es ==> !e.StopClient?
    ensures var w := Run(es);
            id in Breached(w.geofences, hwIds, |hwIds|, client) <==>
            Key(client, id) in w.ids && w.ids[Key(client, id)] in hwIds
  {
    var w, k := Run(es), Key(client, id);
    BreachedMembers(w.geofences, hwIds, |hwIds|, client, id);
    if k in w.ids {
      MapsAreInverse(es, k, w.ids[k]);
    }
    forall i | 0 <= i < |hwIds|
      ensures hwIds[i] in w.geofences && w.geofences[hwIds[i]].key == k <==> k in w.ids && w.ids[k] == hwIds[i]
    {
      MapsAreInverse(es, k, hwIds[i]);
    }
  }
}
