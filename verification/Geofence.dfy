/**
 `GeofenceAdapter` (gps/geofence/GeofenceAdapter.cpp), proved against `GeofenceProtocol.Step`.

 Maps are walked in any order.  A batch is a run of single requests, as the code queues them one by one.
 */
module Geofence {
  import opened GeofenceProtocol
  import opened Wrappers

  /** A client and whether it has a breach callback. */
  datatype Client = Client(id: nat, hasCallback: bool)

  /** What a breach callback is told. */
  datatype Notice = Notice(client: nat, ids: seq<nat>)

  /** The notices to the first `n` clients: to those that have a callback and a breached geofence. */
  function Notices(geofences: map<nat, GeofenceProtocol.Geofence>, hwIds: seq<nat>, clients: seq<Client>, n: nat)
    : seq<Notice>
    requires n <= |clients|
  {
    if n == 0 then []
    else
      var rest, c := Notices(geofences, hwIds, clients, n - 1), clients[n - 1];
      var ids := Breached(geofences, hwIds, |hwIds|, c.id);
      if |ids| > 0 && c.hasCallback then rest + [Notice(c.id, ids)] else rest
  }

  /** A client gets a notice exactly if it has a callback and one of its geofences was breached, then of all those, and
      once for each time it is registered. */
  lemma {:induction false} NoticesAreExact(
    geofences: map<nat, GeofenceProtocol.Geofence>, hwIds: seq<nat>, clients: seq<Client>, n: nat, notice: Notice)
    requires n <= |clients|
    ensures multiset(Notices(geofences, hwIds, clients, n))[notice] ==
            if notice.ids == Breached(geofences, hwIds, |hwIds|, notice.client) && notice.ids != [] then
              multiset(clients[..n])[Client(notice.client, true)]
            else 0
  {
    if n > 0 {
      NoticesAreExact(geofences, hwIds, clients, n - 1, notice);
      OneMoreClient(clients, n, Client(notice.client, true));
    }
  }

  lemma OneMoreClient(clients: seq<Client>, n: nat, c: Client)
    requires 0 < n <= |clients|
    ensures multiset(clients[..n])[c] == multiset(clients[..n - 1])[c] + if clients[n - 1] == c then 1 else 0
  {
    assert clients[..n] == clients[..n - 1] + [clients[n - 1]];
  }

  /** How far a client's keys have been taken out: all but those still to do. */
  ghost predicate Forgetting(
    was: map<Key, nat>, client: nat, todo: set<Key>, ids: map<Key, nat>, before: seq<Call>, calls: seq<Call>,
    keys: seq<Key>)
  {
    todo <= was.Keys && Lists(keys, KeysOf(was, client) - todo) && ids == was - (KeysOf(was, client) - todo) &&
    calls == before + Forgets(was, keys)
  }

  lemma OneMoreForgotten(
    was: map<Key, nat>, client: nat, todo: set<Key>, ids: map<Key, nat>, before: seq<Call>, calls: seq<Call>,
    keys: seq<Key>, k: Key)
    requires Forgetting(was, client, todo, ids, before, calls, keys) && k in todo && k.client == client
    ensures k in ids && Forgetting(was, client, todo - {k}, ids - {k}, before, calls + [Forget(ids[k])], keys + [k])
  {
    assert KeysOf(was, client) - (todo - {k}) == KeysOf(was, client) - todo + {k};
    assert Forgets(was, keys + [k]) == Forgets(was, keys) + [Forget(was[k])];
  }

  /** How far the geofences have been sent again: all but those still to do. */
  ghost predicate Readding(
    was: map<nat, GeofenceProtocol.Geofence>, todo: set<nat>, before: seq<Call>, calls: seq<Call>, hws: seq<nat>)
  {
    todo <= was.Keys && Lists(hws, was.Keys - todo) && calls == before + Readds(was, hws)
  }

  class GeofenceAdapter {
    var geofences: map<nat, GeofenceProtocol.Geofence>    // mGeofences
    var ids: map<Key, nat>                                // mGeofenceIds
    ghost var calls: seq<Call>
    ghost var answered: set<nat>
    ghost var used: set<nat>
    ghost var asked: set<Key>
    ghost var stopped: set<Key>

    constructor ()
      ensures View() == Initial
    {
      geofences, ids, calls, answered, used, asked, stopped := map[], map[], [], {}, {}, {}, {};
    }

    ghost function View(): World
      reads this
    {
      World(geofences, ids, calls, answered, used, asked, stopped)
    }

    /** A call to the engine; its answer is `Respond`. */
    method Send(call: Call)
      modifies `calls
      ensures View() == Issue(old(View()), [call])
    {
      calls := calls + [call];
    }

    method GetHwIdFromClient(key: Key) returns (hwId: Option<nat>)
      ensures hwId == if key in ids then Some(ids[key]) else None
    {
      if key in ids {
        hwId := Some(ids[key]);
      } else {
        hwId := None;
      }
    }

    method GetGeofenceKeyFromHwId(hwId: nat) returns (key: Option<Key>)
      ensures key == if hwId in geofences then Some(geofences[hwId].key) else None
    {
      if hwId in geofences {
        key := Some(geofences[hwId].key);
      } else {
        key := None;
      }
    }

    // ---------------------------------------------------------------- the maps

    method SaveGeofenceItem(fence: GeofenceProtocol.Geofence, hwId: nat)
      modifies `geofences, `ids
      ensures View() == SaveItem(old(View()), fence, hwId)
    {
      geofences := geofences[hwId := fence.(paused := false)];
      ids := ids[fence.key := hwId];
    }

    method RemoveGeofenceItem(hwId: nat)
      modifies `geofences, `ids
      ensures View() == RemoveItem(old(View()), hwId)
    {
      var key := GetGeofenceKeyFromHwId(hwId);
      if key.Some? && key.value in ids {
        ids := ids - {key.value};
        geofences := geofences - {hwId};
      }
    }

    method PauseGeofenceItem(hwId: nat)
      modifies `geofences
      ensures View() == ChangeItem(old(View()), Pause(hwId))
    {
      if hwId in geofences {
        geofences := geofences[hwId := geofences[hwId].(paused := true)];
      }
    }

    method ResumeGeofenceItem(hwId: nat)
      modifies `geofences
      ensures View() == ChangeItem(old(View()), Resume(hwId))
    {
      if hwId in geofences {
        geofences := geofences[hwId := geofences[hwId].(paused := false)];
      }
    }

    method ModifyGeofenceItem(hwId: nat, options: Options)
      modifies `geofences
      ensures View() == ChangeItem(old(View()), Modify(hwId, options))
    {
      if hwId in geofences {
        geofences := geofences[hwId := geofences[hwId].(options := options)];
      }
    }

    // ---------------------------------------------------------------- requests

    method AddGeofence(fence: GeofenceProtocol.Geofence)
      requires fence.key !in asked
      modifies `calls, `asked
      ensures View() == Step(old(View()), GeofenceProtocol.AddGeofence(fence))
    {
      asked := asked + {fence.key};
      Send(Add(fence.(paused := false)));
    }

    method RemoveGeofence(key: Key)
      modifies `calls
      ensures View() == Step(old(View()), GeofenceProtocol.RemoveGeofence(key))
    {
      var hwId := GetHwIdFromClient(key);
      if hwId.Some? {
        Send(Remove(hwId.value));
      }
    }

    method PauseGeofence(key: Key)
      modifies `calls
      ensures View() == Step(old(View()), GeofenceProtocol.PauseGeofence(key))
    {
      var hwId := GetHwIdFromClient(key);
      if hwId.Some? {
        Send(Pause(hwId.value));
      }
    }

    method ResumeGeofence(key: Key)
      modifies `calls
      ensures View() == Step(old(View()), GeofenceProtocol.ResumeGeofence(key))
    {
      var hwId := GetHwIdFromClient(key);
      if hwId.Some? {
        Send(Resume(hwId.value));
      }
    }

    method ModifyGeofence(key: Key, options: Options)
      modifies `calls
      ensures View() == Step(old(View()), GeofenceProtocol.ModifyGeofence(key, options))
    {
      var hwId := GetHwIdFromClient(key);
      if hwId.Some? {
        Send(Modify(hwId.value, options));
      }
    }

    /** The loop of `stopClientSessions`, which erases as it goes. */
    method ForgetAll(client: nat) returns (ghost keys: seq<Key>)
      modifies `ids, `calls
      ensures Lists(keys, KeysOf(old(ids), client)) && ids == old(ids) - KeysOf(old(ids), client)
      ensures calls == old(calls) + Forgets(old(ids), keys)
    {
      ghost var was, before := ids, calls;
      var todo := ids.Keys;
      keys := [];
      while todo != {}
        invariant Forgetting(was, client, todo, ids, before, calls, keys)
        decreases |todo|
      {
        var k :| k in todo;
        if k.client == client {
          OneMoreForgotten(was, client, todo, ids, before, calls, keys, k);
          var hwId := ids[k];
          ids := ids - {k};
          Send(Forget(hwId));
          keys := keys + [k];
        }
        todo := todo - {k};
      }
    }

    method StopClientSessions(client: nat) returns (ghost keys: seq<Key>)
      modifies `ids, `calls, `stopped
      ensures Lists(keys, KeysOf(old(ids), client))
      ensures View() == Step(old(View()), StopClient(client, keys))
    {
      stopped := stopped + KeysOf(ids, client);
      keys := ForgetAll(client);
    }

    method RestartGeofences() returns (ghost hws: seq<nat>)
      modifies `geofences, `ids, `calls
      ensures Lists(hws, old(geofences).Keys)
      ensures View() == Step(old(View()), Restart(hws))
    {
      hws := [];
      if |geofences| == 0 {
        return;
      }
      var oldGeofences := geofences;
      geofences, ids := map[], map[];
      var todo := oldGeofences.Keys;
      while todo != {}
        invariant geofences == map[] && ids == map[] && Readding(oldGeofences, todo, old(calls), calls, hws)
        decreases |todo|
      {
        var hw :| hw in todo;
        Send(Add(oldGeofences[hw]));
        todo := todo - {hw};
        hws := hws + [hw];
      }
    }

    // ---------------------------------------------------------------- the engine's answers

    /** The callback handed over with a call. */
    method Apply(call: Call, hwId: nat)
      modifies `geofences, `ids, `calls
      ensures View() == Effect(old(View()), call, hwId)
    {
      match call
      case Add(fence) =>
        if fence.paused {
          Send(Repause(hwId));
        }
        SaveGeofenceItem(fence, hwId);
      case Repause(_) =>
      case Remove(hw) => RemoveGeofenceItem(hw);
      case Forget(hw) => geofences := geofences - {hw};
      case Pause(hw) => PauseGeofenceItem(hw);
      case Resume(hw) => ResumeGeofenceItem(hw);
      case Modify(hw, options) => ModifyGeofenceItem(hw, options);
    }

    /** `call` is what the callback of call number `n` has captured. */
    method Respond(ghost n: nat, call: Call, ok: bool, hwId: nat)
      requires Open(View(), n) && calls[n] == call && (call.Add? && ok ==> hwId !in used)
      modifies this
      ensures View() == Step(old(View()), GeofenceProtocol.Respond(n, ok, hwId))
    {
      answered := answered + {n};
      if ok {
        if call.Add? {
          used := used + {hwId};
        }
        Apply(call, hwId);
      }
    }

    // ---------------------------------------------------------------- breaches

    method BreachedIds(hwIds: seq<nat>, client: nat) returns (clientIds: seq<nat>)
      ensures clientIds == Breached(geofences, hwIds, |hwIds|, client)
    {
      clientIds := [];
      var i := 0;
      while i < |hwIds|
        invariant 0 <= i <= |hwIds|
        invariant clientIds == Breached(geofences, hwIds, i, client)
      {
        var key := GetGeofenceKeyFromHwId(hwIds[i]);
        if key.Some? && key.value.client == client {
          clientIds := clientIds + [key.value.id];
        }
        i := i + 1;
      }
    }

    method GeofenceBreach(hwIds: seq<nat>, clients: seq<Client>) returns (notices: seq<Notice>)
      ensures notices == Notices(geofences, hwIds, clients, |clients|)
    {
      notices := [];
      var n := 0;
      while n < |clients|
        invariant 0 <= n <= |clients|
        invariant notices == Notices(geofences, hwIds, clients, n)
      {
        var clientIds := BreachedIds(hwIds, clients[n].id);
        if |clientIds| > 0 && clients[n].hasCallback {
          notices := notices + [Notice(clients[n].id, clientIds)];
        }
        n := n + 1;
      }
    }
  }
}
