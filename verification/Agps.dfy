/**
 `AgpsStateMachine` and `AgpsManager` (gps/gnss/Agps.cpp, Agps.h), proved against `AgpsProtocol.Step`.

 The callbacks into the framework and to subscribers become entries of the ghost log.  The deleted subscriber is
 identified by its handle, which is all `equals` looks at.
 */
module Agps {
  import opened AgpsProtocol
  import opened Wrappers

  class AgpsSubscriber {
    const connHandle: Handle
    const waitForCloseComplete: bool
    var isInactive: bool

    constructor (connHandle: Handle, waitForCloseComplete: bool, isInactive: bool)
      ensures View() == Sub(connHandle, waitForCloseComplete, isInactive)
    {
      this.connHandle, this.waitForCloseComplete := connHandle, waitForCloseComplete;
      this.isInactive := isInactive;
    }

    ghost function View(): Sub
      reads this
    {
      Sub(connHandle, waitForCloseComplete, isInactive)
    }

    predicate Equals(other: AgpsSubscriber) {
      connHandle == other.connHandle
    }

    method Clone() returns (c: AgpsSubscriber)
      ensures fresh(c) && c.View() == View()
    {
      c := new AgpsSubscriber(connHandle, waitForCloseComplete, isInactive);
    }
  }

  class AgpsStateMachine {
    var subscribers: seq<AgpsSubscriber>
    var current: AgpsSubscriber?
    var state: Phase
    ghost var subs: seq<Sub>              // what the list says
    ghost var log: seq<Act>
    ghost var Repr: set<AgpsSubscriber>   // the clones made so far

    constructor ()
      ensures Valid() && View() == Initial && Repr == {}
    {
      subscribers, current, state := [], null, Released;
      subs, log, Repr := [], [], {};
    }

    ghost predicate Valid()
      reads this, Repr
    {
      |subs| == |subscribers| &&
      forall i :: 0 <= i < |subscribers| ==> subscribers[i] in Repr && subs[i] == subscribers[i].View()
    }

    ghost function View(): Machine
      reads this
    {
      Machine(state, subs, log)
    }

    method GetSubscriber(connHandle: Handle) returns (subscriber: AgpsSubscriber?)
      requires Valid()
      ensures subscriber != null ==> subscriber in subscribers && subscriber.connHandle == connHandle
      ensures subscriber == null <==> !Listed(subs, connHandle)
    {
      var i := 0;
      while i < |subscribers|
        invariant 0 <= i <= |subscribers|
        invariant forall k :: 0 <= k < i ==> subs[k].handle != connHandle
      {
        if subscribers[i].connHandle == connHandle {
          assert subs[i].handle == connHandle;
          return subscribers[i];
        }
        i := i + 1;
      }
      return null;
    }

    method AddSubscriber(subscriberToAdd: AgpsSubscriber)
      requires Valid()
      modifies `subscribers, `subs, `log, `Repr
      ensures Valid() && fresh(Repr - old(Repr))
      ensures subs == Add(old(subs), subscriberToAdd.View())
      ensures log == old(log) + Admission(old(subs), subscriberToAdd.connHandle)
    {
      var i := 0;
      while i < |subscribers|
        invariant 0 <= i <= |subscribers|
        invariant forall k :: 0 <= k < i ==> subs[k].handle != subscriberToAdd.connHandle
      {
        if subscribers[i].Equals(subscriberToAdd) {
          assert subs[i].handle == subscriberToAdd.connHandle;
          return;
        }
        i := i + 1;
      }
      var cloned := subscriberToAdd.Clone();
      subscribers, subs, Repr := subscribers + [cloned], subs + [cloned.View()], Repr + {cloned};
      log := log + [Admit(subscriberToAdd.connHandle)];
    }

    /** `mSubscriberList.erase` and the deletion of the node. */
    method Erase(i: nat)
      requires Valid() && i < |subscribers|
      modifies `subscribers, `subs
      ensures Valid() && subs == old(subs)[..i] + old(subs)[i + 1..]
    {
      subscribers := subscribers[..i] + subscribers[i + 1..];
      subs := subs[..i] + subs[i + 1..];
    }

    /** One round of the loop of `deleteSubscriber`; answers where the traversal stands next. */
    method EraseIfHandle(i: nat, connHandle: Handle) returns (next: nat)
      requires Valid() && i < |subscribers|
      modifies `subscribers, `subs
      ensures Valid()
      ensures Traversal(subs, next, log) == VisitOne(Traversal(old(subs), i, log), Only(connHandle), None, true)
    {
      next := i;
      if subscribers[i].connHandle == connHandle {
        Erase(i);
      } else {
        next := i + 1;
      }
    }

    method DeleteSubscriber(connHandle: Handle)
      requires Valid()
      modifies `subscribers, `subs
      ensures Valid() && subs == Without(old(subs), Only(connHandle))
    {
      ghost var k, t := 0, Traversal(subs, 0, log);
      var i := 0;
      while i < |subscribers|
        invariant Valid() && k <= |old(subs)| && 0 <= i
        invariant t == Traversal(subs, i, log) && t == Traverse(old(subs), log, k, Only(connHandle), None, true)
        decreases |old(subs)| - k
      {
        t := VisitOne(t, Only(connHandle), None, true);
        i := EraseIfHandle(i, connHandle);
        k := k + 1;
      }
      TraversalEnds(Traversal(subs, i, log), old(subs), log, k, Only(connHandle), None, true);
    }

    method AnyActiveSubscribers() returns (any: bool)
      requires Valid()
      ensures any <==> AnyActive(subs)
    {
      var i := 0;
      while i < |subscribers|
        invariant 0 <= i <= |subscribers|
        invariant forall k :: 0 <= k < i ==> subs[k].inactive
      {
        if !subscribers[i].isInactive {
          assert !subs[i].inactive;
          return true;
        }
        i := i + 1;
      }
      return false;
    }

    method NotifyEventToSubscriber(notice: Notice, connHandle: Handle, deletePostNotify: bool)
      requires Valid()
      modifies `subscribers, `subs, `log
      ensures Valid()
      ensures log == old(log) + [ActOf(notice, connHandle)]
      ensures subs == if deletePostNotify then Without(old(subs), Only(connHandle)) else old(subs)
      ensures !deletePostNotify ==> subscribers == old(subscribers)
    {
      log := log + [ActOf(notice, connHandle)];
      if deletePostNotify {
        DeleteSubscriber(connHandle);
      }
    }

    /** One round of the loop of `notifyAllSubscribers`; answers where the traversal stands next. */
    method Visit(i: nat, notice: Notice, deletePostNotify: bool, to: Audience) returns (next: nat)
      requires Valid() && !to.Only? && i < |subscribers|
      modifies `subscribers, `subs, `log
      ensures Valid()
      ensures Traversal(subs, next, log) ==
              VisitOne(Traversal(old(subs), i, old(log)), to, Some(notice), deletePostNotify)
    {
      var subscriber := subscribers[i];
      if to == All || (to == InactiveOnes && subscriber.isInactive) || (to == ActiveOnes && !subscriber.isInactive) {
        NotifyEventToSubscriber(notice, subscriber.connHandle, false);
        if deletePostNotify {
          Erase(i);
          next := i;
        } else {
          next := i + 1;
        }
      } else {
        next := i + 1;
      }
    }

    method NotifyAllSubscribers(notice: Notice, deletePostNotify: bool, to: Audience)
      requires Valid() && !to.Only?
      modifies `subscribers, `subs, `log
      ensures Valid()
      ensures log == old(log) + Tell(old(subs), to, notice)
      ensures subs == if deletePostNotify then Without(old(subs), to) else old(subs)
    {
      ghost var k, t := 0, Traversal(subs, 0, log);
      var i := 0;
      while i < |subscribers|
        invariant Valid() && k <= |old(subs)| && 0 <= i
        invariant t == Traversal(subs, i, log)
        invariant t == Traverse(old(subs), old(log), k, to, Some(notice), deletePostNotify)
        decreases |old(subs)| - k
      {
        t := VisitOne(t, to, Some(notice), deletePostNotify);
        i := Visit(i, notice, deletePostNotify, to);
        k := k + 1;
      }
      TraversalEnds(Traversal(subs, i, log), old(subs), old(log), k, to, Some(notice), deletePostNotify);
    }

    method DropFirst()
      requires Valid() && |subscribers| > 0
      modifies `subscribers, `subs, `log
      ensures Valid()
      ensures Traversal(subs, 0, log) == VisitOne(Traversal(old(subs), 0, old(log)), All, Some(Dropped), true)
    {
      log := log + [Drop(subs[0].handle)];
      Erase(0);
    }

    /** The loop of `dropAllSubscribers`. */
    method DropEach()
      requires Valid()
      modifies `subscribers, `subs, `log
      ensures Valid() && subs == Without(old(subs), All) && log == old(log) + Tell(old(subs), All, Dropped)
    {
      ghost var k := 0;
      ghost var t := Traversal(subs, 0, log);
      while |subscribers| > 0
        invariant Valid() && k <= |old(subs)|
        invariant t == Traversal(subs, 0, log) && t == Traverse(old(subs), old(log), k, All, Some(Dropped), true)
        decreases |old(subs)| - k
      {
        t := VisitOne(t, All, Some(Dropped), true);
        DropFirst();
        k := k + 1;
      }
      TraversalEnds(Traversal(subs, 0, log), old(subs), old(log), k, All, Some(Dropped), true);
    }

    method DropAllSubscribers()
      requires Valid()
      modifies `subscribers, `subs, `log
      ensures Valid() && View() == Step(old(View()), ModemReset)
    {
      DropEach();
    }

    /** `requestOrReleaseDataConn`. */
    method RequestOrReleaseDataConn(request: bool)
      modifies `log
      ensures log == old(log) + [if request then RequestConn else ReleaseConn]
    {
      log := log + [if request then RequestConn else ReleaseConn];
    }

    method ProcessSubscribe()
      requires Valid() && current != null
      modifies `subscribers, `subs, `log, `Repr, `state
      ensures Valid() && fresh(Repr - old(Repr))
      ensures View() == Step(old(View()), Subscribe(old(current.View())))
    {
      match state
      case Released =>
        AddSubscriber(current);
        RequestOrReleaseDataConn(true);
        state := Pending;
      case Pending =>
        AddSubscriber(current);
      case Acquired =>
        NotifyEventToSubscriber(Granted, current.connHandle, false);
        AddSubscriber(current);
      case Releasing =>
        AddSubscriber(current);
    }

    /** A new subscriber that does not wait for the close becomes the current one. */
    method SubscribeNewcomer(connHandle: Handle)
      requires Valid()
      modifies `current, `subscribers, `subs, `log, `Repr, `state
      ensures Valid() && fresh(Repr - old(Repr))
      ensures View() == Step(old(View()), Subscribe(Sub(connHandle, false, false)))
    {
      current := new AgpsSubscriber(connHandle, false, false);
      ProcessSubscribe();
    }

    /** The two ways a subscriber leaves: wait inactive for the close, or be told and deleted at once. */
    method RetireCurrent()
      requires Valid() && Distinct(subs) && current != null && current in subscribers
      modifies `subscribers, `subs, `log, current`isInactive
      ensures Valid()
      ensures var h := current.connHandle;
              if Waits(old(subs), h) then subs == MarkInactive(old(subs), h) && log == old(log)
              else subs == Without(old(subs), Only(h)) && log == old(log) + [Closed(h)]
    {
      ghost var at :| 0 <= at < |subscribers| && subscribers[at] == current;
      assert subs[at].handle == current.connHandle && subs[at].wait == current.waitForCloseComplete;
      if current.waitForCloseComplete {
        current.isInactive := true;
        subs := MarkInactive(subs, current.connHandle);
      } else {
        NotifyEventToSubscriber(Gone, current.connHandle, true);
      }
    }

    method ProcessUnsubscribe()
      requires Valid() && Distinct(subs) && current != null && (state == Released || current in subscribers)
      modifies `subscribers, `subs, `log, `state, current`isInactive
      ensures Valid()
      ensures View() == Step(old(View()), Unsubscribe(current.connHandle))
    {
      match state
      case Released =>
        NotifyEventToSubscriber(Gone, current.connHandle, false);
      case Releasing =>
        RetireCurrent();
        if |subscribers| == 0 {
          state := Released;
        }
      case _ =>
        RetireConnected();
    }

    /** The PENDING and ACQUIRED cases. */
    method RetireConnected()
      requires Valid() && Distinct(subs) && current != null && current in subscribers
      requires state == Pending || state == Acquired
      modifies `subscribers, `subs, `log, `state, current`isInactive
      ensures Valid()
      ensures View() == OnUnsubscribe(old(View()), current.connHandle)
    {
      RetireCurrent();
      if |subscribers| == 0 {
        state := Released;
        RequestOrReleaseDataConn(false);
      } else {
        var any := AnyActiveSubscribers();
        if !any {
          state := Releasing;
          RequestOrReleaseDataConn(false);
        }
      }
    }

    /** A listed subscriber becomes the current one and leaves. */
    method UnsubscribeListed(subscriber: AgpsSubscriber)
      requires Valid() && Distinct(subs) && subscriber in subscribers
      modifies `current, `subscribers, `subs, `log, `state, subscriber`isInactive
      ensures Valid()
      ensures View() == Step(old(View()), Unsubscribe(subscriber.connHandle))
    {
      current := subscriber;
      ProcessUnsubscribe();
    }

    method ProcessGranted()
      requires Valid()
      modifies `subscribers, `subs, `log, `state
      ensures Valid() && View() == Step(old(View()), ConnGranted)
    {
      if state == Pending {
        state := Acquired;
        NotifyAllSubscribers(Granted, false, ActiveOnes);
      }
    }

    method ProcessReleased()
      requires Valid()
      modifies `subscribers, `subs, `log, `state
      ensures Valid() && View() == Step(old(View()), ConnReleased)
    {
      match state
      case Released =>
      case Pending =>
      case Acquired =>
        log := log + [LostWhileAcquired];
        state := Released;
        NotifyAllSubscribers(Gone, true, All);
      case Releasing =>
        FinishRelease();
    }

    method ProcessDenied()
      requires Valid()
      modifies `subscribers, `subs, `log, `state
      ensures Valid() && View() == Step(old(View()), ConnDenied)
    {
      match state
      case Released =>
      case Acquired =>
      case Releasing =>
        FinishRelease();
      case Pending =>
        log := log + [DeniedWhilePending];
        state := Released;
        NotifyAllSubscribers(Denied, true, All);
    }

    /** The event behind a report of the framework. */
    method ProcessReport(outcome: Outcome)
      requires Valid()
      modifies `subscribers, `subs, `log, `state
      ensures Valid() && View() == Step(old(View()), EventOf(outcome))
    {
      match outcome
      case OpenSuccess => ProcessGranted();
      case OpenFailure => ProcessDenied();
      case CloseReport => ProcessReleased();
    }

    /** What RELEASED and DENIED both do in the RELEASING state. */
    method FinishRelease()
      requires Valid()
      modifies `subscribers, `subs, `log, `state
      ensures Valid() && View() == OnReleaseComplete(old(View()))
    {
      ghost var m := View();
      NotifyAllSubscribers(Gone, true, InactiveOnes);
      assert View() == m.(subs := Without(m.subs, InactiveOnes), log := m.log + Tell(m.subs, InactiveOnes, Gone));
      var any := AnyActiveSubscribers();
      if any {
        state := Pending;
        RequestOrReleaseDataConn(true);
      } else {
        state := Released;
      }
    }
  }

  class AgpsManager {
    var agnssNif: AgpsStateMachine?
    var internetNif: AgpsStateMachine?
    ghost var rejected: seq<Handle>

    constructor ()
      ensures Valid() && View() == Manager(None, None, [])
    {
      agnssNif, internetNif, rejected := null, null, [];
    }

    ghost predicate MachineOk(sm: AgpsStateMachine?)
      reads sm, if sm == null then {} else sm.Repr
    {
      sm != null ==> sm.Valid() && ListSound(sm.View())
    }

    ghost predicate Valid()
      reads this, agnssNif, internetNif
      reads if agnssNif == null then {} else agnssNif.Repr
      reads if internetNif == null then {} else internetNif.Repr
    {
      MachineOk(agnssNif) && MachineOk(internetNif) &&
      (agnssNif != null && internetNif != null ==>
         agnssNif != internetNif && agnssNif.Repr !! internetNif.Repr)
    }

    ghost function View(): Manager
      reads this, agnssNif, internetNif
    {
      Manager(if agnssNif == null then None else Some(agnssNif.View()),
              if internetNif == null then None else Some(internetNif.View()), rejected)
    }

    /** Everything a call may change. */
    ghost function Footprint(): set<object>
      reads this, agnssNif, internetNif
    {
      {this} + (if agnssNif == null then {} else {agnssNif} + agnssNif.Repr)
             + (if internetNif == null then {} else {internetNif} + internetNif.Repr)
    }

    method CreateAgpsStateMachines(wwan: bool, supl: bool)
      requires Valid()
      modifies this
      ensures Valid() && View() == ManagerStep(old(View()), Create(wwan, supl))
    {
      if internetNif == null && wwan {
        internetNif := new AgpsStateMachine();
      }
      if agnssNif == null && supl {
        agnssNif := new AgpsStateMachine();
      }
    }

    method GetAgpsStateMachine(agpsType: AgpsType) returns (sm: AgpsStateMachine?)
      ensures sm == if UsesAgnss(agpsType) then agnssNif else internetNif
    {
      match agpsType
      case TypeInvalid => sm := agnssNif;
      case Supl => sm := agnssNif;
      case SuplEs => sm := agnssNif;
      case WwanAny => sm := internetNif;
      case OtherType => sm := internetNif;
    }

    method RequestATL(connHandle: Handle, agpsType: AgpsType, useEmergencyPdn: bool)
      requires Valid()
      modifies Footprint()
      ensures Valid() && View() == ManagerStep(old(View()), Request(connHandle, agpsType))
    {
      var routed := agpsType;
      if !useEmergencyPdn && agpsType == SuplEs {
        routed := Supl;
      }
      var sm := GetAgpsStateMachine(routed);
      if sm == null {
        rejected := rejected + [connHandle];
        return;
      }
      sm.SubscribeNewcomer(connHandle);
      ListStaysSound(old(sm.View()), Subscribe(Sub(connHandle, false, false)));
    }

    method ReleaseATL(connHandle: Handle)
      requires Valid()
      modifies Footprint()
      ensures Valid() && View() == ManagerStep(old(View()), Release(connHandle))
    {
      var sm: AgpsStateMachine? := null;
      var subscriber: AgpsSubscriber? := null;
      if agnssNif != null {
        subscriber := agnssNif.GetSubscriber(connHandle);
        if subscriber != null {
          sm := agnssNif;
        }
      }
      if sm == null && internetNif != null {
        subscriber := internetNif.GetSubscriber(connHandle);
        if subscriber != null {
          sm := internetNif;
        }
      }
      if sm == null {
        return;
      }
      sm.UnsubscribeListed(subscriber);
      ListStaysSound(old(sm.View()), Unsubscribe(connHandle));
    }

    /** The three reports go to the machine without asking whether there is one. */
    method Report(agpsType: AgpsType, outcome: Outcome)
      requires Valid()
      requires if UsesAgnss(agpsType) then agnssNif != null else internetNif != null
      modifies Footprint()
      ensures Valid() && View() == ManagerStep(old(View()), ReportAtl(agpsType, outcome))
    {
      var sm := GetAgpsStateMachine(agpsType);
      ghost var other := if UsesAgnss(agpsType) then internetNif else agnssNif;
      sm.ProcessReport(outcome);
      assert other != null ==> MachineOk(other) && other.View() == old(other.View());
      ListStaysSound(old(sm.View()), EventOf(outcome));
    }

    method HandleModemSSR()
      requires Valid()
      modifies Footprint()
      ensures Valid() && View() == ManagerStep(old(View()), ModemSSR)
    {
      if agnssNif != null {
        agnssNif.DropAllSubscribers();
        ListStaysSound(old(agnssNif.View()), ModemReset);
      }
      if internetNif != null {
        internetNif.DropAllSubscribers();
        ListStaysSound(old(internetNif.View()), ModemReset);
      }
    }
  }

  // ---------------------------------------------------------------- traversals of the list

  /** The list as it is, the position reached in it and the log so far. */
  datatype Traversal = Traversal(now: seq<Sub>, i: nat, log: seq<Act>)

  ghost function VisitOne(t: Traversal, to: Audience, n: Option<Notice>, erasing: bool): Traversal
    requires t.i < |t.now|
  {
    var s := t.now[t.i];
    if !Addressed(to, s) then t.(i := t.i + 1)
    else
      var log := if n.Some? then t.log + [ActOf(n.value, s.handle)] else t.log;
      if erasing then Traversal(t.now[..t.i] + t.now[t.i + 1..], t.i, log) else Traversal(t.now, t.i + 1, log)
  }

  /** After `k` members of the list the traversal began with. */
  ghost function Traverse(all: seq<Sub>, log: seq<Act>, k: nat, to: Audience, n: Option<Notice>, erasing: bool)
    : (t: Traversal)
    requires k <= |all|
    ensures t.i <= |t.now| && |t.now| - t.i == |all| - k
  {
    if k == 0 then Traversal(all, 0, log) else VisitOne(Traverse(all, log, k - 1, to, n, erasing), to, n, erasing)
  }

  /** Before its position a traversal leaves what it should of the first `k` members, and the rest after it. */
  ghost predicate HasVisited(t: Traversal, all: seq<Sub>, k: nat, to: Audience, erasing: bool) {
    k <= |all| && t.i <= |t.now| && t.now[t.i..] == all[k..] &&
    t.now[..t.i] == if erasing then Without(all[..k], to) else all[..k]
  }

  lemma VisitsNext(t: Traversal, all: seq<Sub>, k: nat, to: Audience, n: Option<Notice>, erasing: bool)
    requires HasVisited(t, all, k, to, erasing) && k < |all|
    ensures t.i < |t.now| && t.now[t.i] == all[k]
    ensures HasVisited(VisitOne(t, to, n, erasing), all, k + 1, to, erasing)
  {
    var now, i := t.now, t.i;
    assert now[i] == now[i..][0] == all[k] && now[i + 1..] == now[i..][1..] && all[k + 1..] == all[k..][1..];
    assert all[..k + 1][..k] == all[..k] && now[..i + 1] == now[..i] + [now[i]];
    var shorter := now[..i] + now[i + 1..];
    assert shorter[..i] == now[..i] && shorter[i..] == now[i + 1..];
  }

  /** It has told those addressed among the first `k`. */
  ghost predicate HasTold(t: Traversal, all: seq<Sub>, log: seq<Act>, k: nat, to: Audience, n: Option<Notice>) {
    k <= |all| && t.log == log + if n.Some? then Tell(all[..k], to, n.value) else []
  }

  lemma TellsNext(t: Traversal, all: seq<Sub>, log: seq<Act>, k: nat, to: Audience, n: Option<Notice>, erasing: bool)
    requires HasTold(t, all, log, k, to, n) && k < |all| && t.i < |t.now| && t.now[t.i] == all[k]
    ensures HasTold(VisitOne(t, to, n, erasing), all, log, k + 1, to, n)
  {
    assert all[..k + 1][..k] == all[..k];
  }

  lemma OneMore(t: Traversal, all: seq<Sub>, log: seq<Act>, k: nat, to: Audience, n: Option<Notice>, erasing: bool)
    returns (next: Traversal)
    requires k < |all| && HasVisited(t, all, k, to, erasing) && HasTold(t, all, log, k, to, n)
    ensures t.i < |t.now| && next == VisitOne(t, to, n, erasing)
    ensures HasVisited(next, all, k + 1, to, erasing) && HasTold(next, all, log, k + 1, to, n)
  {
    VisitsNext(t, all, k, to, n, erasing);
    TellsNext(t, all, log, k, to, n, erasing);
    next := VisitOne(t, to, n, erasing);
  }

  lemma {:induction false} TraverseVisits(all: seq<Sub>, log: seq<Act>, k: nat, to: Audience, n: Option<Notice>,
                                          erasing: bool)
    returns (t: Traversal)
    requires k <= |all|
    ensures t == Traverse(all, log, k, to, n, erasing)
    ensures HasVisited(t, all, k, to, erasing)
    ensures HasTold(t, all, log, k, to, n)
  {
    t := Traversal(all, 0, log);
    if k > 0 {
      t := TraverseVisits(all, log, k - 1, to, n, erasing);
      t := OneMore(t, all, log, k - 1, to, n, erasing);
    }
  }

  lemma TraverseAll(all: seq<Sub>, log: seq<Act>, to: Audience, n: Option<Notice>, erasing: bool)
    ensures var t := Traverse(all, log, |all|, to, n, erasing);
            t.now == (if erasing then Without(all, to) else all) &&
            t.log == log + if n.Some? then Tell(all, to, n.value) else []
  {
    var t := TraverseVisits(all, log, |all|, to, n, erasing);
    assert all[..|all|] == all && t.now[..t.i] == t.now;
  }

  /** A traversal that has come to the end of its list has visited every member. */
  lemma TraversalEnds(
    t: Traversal, all: seq<Sub>, log: seq<Act>, k: nat, to: Audience, n: Option<Notice>, erasing: bool)
    requires k <= |all| && t == Traverse(all, log, k, to, n, erasing) && t.i >= |t.now|
    ensures t.now == (if erasing then Without(all, to) else all)
    ensures t.log == log + if n.Some? then Tell(all, to, n.value) else []
  {
    TraverseAll(all, log, to, n, erasing);
  }
}
