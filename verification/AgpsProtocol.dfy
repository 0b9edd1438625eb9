/**
 The AGPS data-connection protocol (gps/gnss/Agps.cpp, Agps.h) as a step relation on values.

 A machine keeps a subscriber list and asks the framework for one shared data connection.  Its log records, in
 order, everything it sends to the framework and to its subscribers, each admission to and modem-reset removal
 from the list, and the two events by which the framework takes a connection away.  The module `Agps` proves the
 code against `Step`; the laws of whole runs are stated here.
 */
module AgpsProtocol {
  import opened Wrappers

  type Handle = int

  datatype Phase = Released | Pending | Acquired | Releasing

  datatype Sub = Sub(handle: Handle, wait: bool, inactive: bool)

  datatype Event =
    | Subscribe(sub: Sub)
    | Unsubscribe(handle: Handle)
    | ConnGranted
    | ConnReleased
    | ConnDenied
    | ModemReset

  datatype Act =
    | RequestConn | ReleaseConn                                         // to the framework
    | OpenOk(h: Handle) | OpenFailed(h: Handle) | Closed(h: Handle)     // to a subscriber
    | Admit(h: Handle) | Drop(h: Handle)                                // list membership
    | DeniedWhilePending | LostWhileAcquired                            // from the framework

  datatype Machine = Machine(phase: Phase, subs: seq<Sub>, log: seq<Act>)

  const Initial := Machine(Released, [], [])

  // ---------------------------------------------------------------- the subscriber list

  predicate Listed(subs: seq<Sub>, h: Handle) {
    exists i :: 0 <= i < |subs| && subs[i].handle == h
  }

  predicate Distinct(subs: seq<Sub>) {
    forall i, j :: 0 <= i < j < |subs| ==> subs[i].handle != subs[j].handle
  }

  predicate AnyActive(subs: seq<Sub>) {
    exists i :: 0 <= i < |subs| && !subs[i].inactive
  }

  function Add(subs: seq<Sub>, s: Sub): seq<Sub> {
    if Listed(subs, s.handle) then subs else subs + [s]
  }

  function Admission(subs: seq<Sub>, h: Handle): seq<Act> {
    if Listed(subs, h) then [] else [Admit(h)]
  }

  /** Whether the listed subscriber `h` wants to hear about the close only when it is complete. */
  predicate Waits(subs: seq<Sub>, h: Handle) {
    exists i :: 0 <= i < |subs| && subs[i].handle == h && subs[i].wait
  }

  function MarkInactive(subs: seq<Sub>, h: Handle): (r: seq<Sub>)
    ensures |r| == |subs|
    ensures forall i :: 0 <= i < |subs| ==>
              r[i] == if subs[i].handle == h then subs[i].(inactive := true) else subs[i]
  {
    if subs == [] then []
    else
      var last := subs[|subs| - 1];
      MarkInactive(subs[..|subs| - 1], h) + [if last.handle == h then last.(inactive := true) else last]
  }

  datatype Audience = All | InactiveOnes | ActiveOnes | Only(handle: Handle)

  predicate Addressed(to: Audience, s: Sub) {
    match to
    case All => true
    case InactiveOnes => s.inactive
    case ActiveOnes => !s.inactive
    case Only(h) => s.handle == h
  }

  /** The list without those addressed. */
  function Without(subs: seq<Sub>, to: Audience): (r: seq<Sub>)
    ensures |r| <= |subs|
  {
    if subs == [] then []
    else
      var last := subs[|subs| - 1];
      Without(subs[..|subs| - 1], to) + if Addressed(to, last) then [] else [last]
  }

  datatype Notice = Granted | Denied | Gone | Dropped

  function ActOf(n: Notice, h: Handle): Act {
    match n
    case Granted => OpenOk(h)
    case Denied => OpenFailed(h)
    case Gone => Closed(h)
    case Dropped => Drop(h)
  }

  /** One notice to each of those addressed, in list order. */
  function Tell(subs: seq<Sub>, to: Audience, n: Notice): seq<Act> {
    if subs == [] then []
    else
      var last := subs[|subs| - 1];
      Tell(subs[..|subs| - 1], to, n) + if Addressed(to, last) then [ActOf(n, last.handle)] else []
  }

  // ---------------------------------------------------------------- one event

  function Step(m: Machine, e: Event): Machine {
    match e
    case Subscribe(s) => OnSubscribe(m, s)
    case Unsubscribe(h) => OnUnsubscribe(m, h)
    case ConnGranted =>
      if m.phase == Pending then Machine(Acquired, m.subs, m.log + Tell(m.subs, ActiveOnes, Granted)) else m
    case ConnReleased =>
      if m.phase == Acquired then
        Machine(Released, Without(m.subs, All), m.log + [LostWhileAcquired] + Tell(m.subs, All, Gone))
      else if m.phase == Releasing then OnReleaseComplete(m)
      else m
    case ConnDenied =>
      if m.phase == Pending then
        Machine(Released, Without(m.subs, All), m.log + [DeniedWhilePending] + Tell(m.subs, All, Denied))
      else if m.phase == Releasing then OnReleaseComplete(m)
      else m
    case ModemReset => Machine(m.phase, Without(m.subs, All), m.log + Tell(m.subs, All, Dropped))
  }

  function OnSubscribe(m: Machine, s: Sub): Machine {
    var admission := Admission(m.subs, s.handle);
    match m.phase
    case Released => Machine(Pending, Add(m.subs, s), m.log + admission + [RequestConn])
    case Acquired => Machine(Acquired, Add(m.subs, s), m.log + [OpenOk(s.handle)] + admission)
    case _ => Machine(m.phase, Add(m.subs, s), m.log + admission)
  }

  function OnUnsubscribe(m: Machine, h: Handle): Machine {
    if m.phase == Released then Machine(Released, m.subs, m.log + [Closed(h)])
    else
      var waits := Waits(m.subs, h);
      var subs := if waits then MarkInactive(m.subs, h) else Without(m.subs, Only(h));
      var log := if waits then m.log else m.log + [Closed(h)];
      if subs == [] then Machine(Released, subs, if m.phase == Releasing then log else log + [ReleaseConn])
      else if m.phase != Releasing && !AnyActive(subs) then Machine(Releasing, subs, log + [ReleaseConn])
      else Machine(m.phase, subs, log)
  }

  function OnReleaseComplete(m: Machine): Machine {
    var subs, log := Without(m.subs, InactiveOnes), m.log + Tell(m.subs, InactiveOnes, Gone);
    if AnyActive(subs) then Machine(Pending, subs, log + [RequestConn]) else Machine(Released, subs, log)
  }

  // ---------------------------------------------------------------- runs

  /** The manager passes the machine only subscribers it has just found in its list, or newly made active ones. */
  predicate Enabled(m: Machine, e: Event) {
    match e
    case Subscribe(s) => !s.inactive
    case Unsubscribe(h) => Listed(m.subs, h)
    case _ => true
  }

  function Run(es: seq<Event>): Machine {
    if es == [] then Initial else Step(Run(es[..|es| - 1]), es[|es| - 1])
  }

  ghost predicate IsRun(es: seq<Event>) {
    forall k :: 0 <= k < |es| ==> Enabled(Run(es[..k]), es[k])
  }

  /** How often `a` occurs in a log. */
  function Tally(log: seq<Act>, a: Act): nat {
    if log == [] then 0 else Tally(log[..|log| - 1], a) + if log[|log| - 1] == a then 1 else 0
  }

  function Count(m: Machine, a: Act): nat {
    Tally(m.log, a)
  }

  /** Every admission is answered by exactly one close, open failure or modem-reset removal, unless still listed. */
  ghost predicate BalancedFor(m: Machine, h: Handle) {
    Count(m, Admit(h)) ==
      Count(m, Closed(h)) + Count(m, OpenFailed(h)) + Count(m, Drop(h)) + if Listed(m.subs, h) then 1 else 0
  }

  ghost predicate AdmissionsBalance(m: Machine) {
    forall h :: BalancedFor(m, h)
  }

  /** Requests to the framework are matched by releases, denials and losses, but for the one outstanding. */
  ghost predicate ConnectionsBalance(m: Machine) {
    Count(m, RequestConn) ==
      Count(m, ReleaseConn) + Count(m, DeniedWhilePending) + Count(m, LostWhileAcquired) +
      if m.phase == Pending || m.phase == Acquired then 1 else 0
  }

  predicate Concerns(a: Act, h: Handle) {
    a == OpenOk(h) || a == OpenFailed(h) || a == Closed(h) || a == Drop(h)
  }

  /** The last thing that happened to `h` in its life as a subscriber was an open-success. */
  predicate ToldOpen(log: seq<Act>, h: Handle) {
    log != [] &&
    var last := log[|log| - 1];
    if Concerns(last, h) then last == OpenOk(h) else ToldOpen(log[..|log| - 1], h)
  }

  /** Active subscribers know the connection is open exactly while it is; nobody off the list still thinks so. */
  ghost predicate OpenKnown(m: Machine) {
    (forall s :: s in m.subs && !s.inactive ==> (ToldOpen(m.log, s.handle) <==> m.phase == Acquired)) &&
    forall h :: !Listed(m.subs, h) ==> !ToldOpen(m.log, h)
  }

  ghost predicate ListSound(m: Machine) {
    Distinct(m.subs) && (m.phase == Released ==> m.subs == [])
  }

  /** The list supports the phase: someone active wants the connection, or someone waits for its release. */
  ghost predicate PhaseSupported(m: Machine) {
    ((m.phase == Pending || m.phase == Acquired) ==> AnyActive(m.subs)) &&
    (m.phase == Releasing ==> m.subs != [])
  }

  ghost predicate Inv(m: Machine) {
    ListSound(m) && AdmissionsBalance(m) && ConnectionsBalance(m) && OpenKnown(m)
  }

  // ---------------------------------------------------------------- lemmas about the list functions

  lemma {:induction false} WithoutAll(subs: seq<Sub>)
    ensures Without(subs, All) == []
  {
    if subs != [] {
      WithoutAll(subs[..|subs| - 1]);
    }
  }

  /** What `Without` keeps: members not addressed, in order, each once. */
  lemma {:induction false} WithoutKeeps(subs: seq<Sub>, to: Audience)
    ensures forall s :: s in Without(subs, to) <==> s in subs && !Addressed(to, s)
    ensures Distinct(subs) ==> Distinct(Without(subs, to))
  {
    if subs != [] {
      var init, last := subs[..|subs| - 1], subs[|subs| - 1];
      WithoutKeeps(init, to);
      assert subs == init + [last];
      if Distinct(subs) {
        forall i | 0 <= i < |Without(init, to)|
          ensures Without(init, to)[i].handle != last.handle
        {
          assert Without(init, to)[i] in init;
        }
      }
    }
  }

  lemma {:induction false} TallyAppend(x: seq<Act>, y: seq<Act>, a: Act)
    ensures Tally(x + y, a) == Tally(x, a) + Tally(y, a)
  {
    if y == [] {
      assert x + y == x;
    } else {
      assert (x + y)[..|x + y| - 1] == x + y[..|y| - 1];
      TallyAppend(x, y[..|y| - 1], a);
    }
  }

  predicate HasAddressed(subs: seq<Sub>, to: Audience, h: Handle) {
    exists i :: 0 <= i < |subs| && subs[i].handle == h && Addressed(to, subs[i])
  }

  /** A round of notices reaches each addressed subscriber exactly once. */
  lemma {:induction false} TellReachesOnce(subs: seq<Sub>, to: Audience, n: Notice, h: Handle)
    requires Distinct(subs)
    ensures Tally(Tell(subs, to, n), ActOf(n, h)) == if HasAddressed(subs, to, h) then 1 else 0
  {
    if subs != [] {
      var init, last := subs[..|subs| - 1], subs[|subs| - 1];
      TellReachesOnce(init, to, n, h);
      AddressedBySnoc(subs, to, h);
      assert last.handle == h ==> !HasAddressed(init, to, h);
      assert ActOf(n, last.handle) == ActOf(n, h) <==> last.handle == h;
      TallyAppend(Tell(init, to, n), if Addressed(to, last) then [ActOf(n, last.handle)] else [], ActOf(n, h));
    }
  }

  /** It says nothing else. */
  lemma {:induction false} TellSaysOnly(subs: seq<Sub>, to: Audience, n: Notice, a: Act)
    requires forall h :: a != ActOf(n, h)
    ensures Tally(Tell(subs, to, n), a) == 0
  {
    if subs != [] {
      var init, last := subs[..|subs| - 1], subs[|subs| - 1];
      TellSaysOnly(init, to, n, a);
      TallyAppend(Tell(init, to, n), if Addressed(to, last) then [ActOf(n, last.handle)] else [], a);
    }
  }

  lemma OneMoreAct(log: seq<Act>, a: Act, h: Handle)
    ensures ToldOpen(log + [a], h) <==> if Concerns(a, h) then a == OpenOk(h) else ToldOpen(log, h)
  {
    assert (log + [a])[..|log|] == log;
  }

  /** A round of notices settles what its addressees were told last, and leaves everyone else's last word. */
  lemma {:induction false} TellSettles(log: seq<Act>, subs: seq<Sub>, to: Audience, n: Notice, h: Handle)
    ensures ToldOpen(log + Tell(subs, to, n), h) <==>
            if HasAddressed(subs, to, h) then n == Granted else ToldOpen(log, h)
  {
    if subs == [] {
      assert log + Tell(subs, to, n) == log;
    } else {
      var init, last := subs[..|subs| - 1], subs[|subs| - 1];
      TellSettles(log, init, to, n, h);
      var before, whole := log + Tell(init, to, n), log + Tell(subs, to, n);
      if Addressed(to, last) {
        assert whole == before + [ActOf(n, last.handle)];
        OneMoreAct(before, ActOf(n, last.handle), h);
      } else {
        assert whole == before;
      }
      AddressedBySnoc(subs, to, h);
    }
  }

  lemma AddressedBySnoc(subs: seq<Sub>, to: Audience, h: Handle)
    requires subs != []
    ensures var last := subs[|subs| - 1];
            HasAddressed(subs, to, h) <==>
            HasAddressed(subs[..|subs| - 1], to, h) || (last.handle == h && Addressed(to, last))
  {
    var init := subs[..|subs| - 1];
    if HasAddressed(init, to, h) {
      var i :| 0 <= i < |init| && init[i].handle == h && Addressed(to, init[i]);
      assert subs[i] == init[i];
    }
    if HasAddressed(subs, to, h) {
      var i :| 0 <= i < |subs| && subs[i].handle == h && Addressed(to, subs[i]);
      assert i < |init| ==> init[i] == subs[i];
    }
  }

  lemma AddKeeps(subs: seq<Sub>, s: Sub, h: Handle)
    ensures Listed(Add(subs, s), h) <==> Listed(subs, h) || h == s.handle
    ensures Distinct(subs) ==> Distinct(Add(subs, s))
  {
    if !Listed(subs, s.handle) {
      assert (subs + [s])[|subs|] == s;
      if i :| 0 <= i < |subs| && subs[i].handle == h {
        assert (subs + [s])[i].handle == h;
      }
    }
  }

  /** With distinct handles, exactly the addressed leave the list. */
  lemma ListedWithout(subs: seq<Sub>, to: Audience, h: Handle)
    requires Distinct(subs)
    ensures Listed(Without(subs, to), h) <==> Listed(subs, h) && !HasAddressed(subs, to, h)
    ensures Distinct(Without(subs, to))
  {
    WithoutKeeps(subs, to);
  }

  // ---------------------------------------------------------------- every step keeps the laws

  lemma ListStaysSound(m: Machine, e: Event)
    requires ListSound(m) && Enabled(m, e)
    ensures ListSound(Step(m, e))
  {
    match e
    case Subscribe(s) => AddKeeps(m.subs, s, 0);
    case Unsubscribe(h) =>
      WithoutKeeps(m.subs, Only(h));
    case ModemReset => WithoutAll(m.subs);
    case _ =>
      WithoutAll(m.subs);
      WithoutKeeps(m.subs, InactiveOnes);
      NobodyInactiveLeft(m.subs);
  }

  lemma NobodyInactiveLeft(subs: seq<Sub>)
    ensures !AnyActive(Without(subs, InactiveOnes)) ==> Without(subs, InactiveOnes) == []
  {
    WithoutKeeps(subs, InactiveOnes);
    var r := Without(subs, InactiveOnes);
    if r != [] {
      assert r[0] in r;
    }
  }

  /** A log that grows by a message to the framework, a round of notices and another message. */
  function Round(m: Machine, before: seq<Act>, to: Audience, n: Notice, after: seq<Act>): seq<Act> {
    m.log + before + Tell(m.subs, to, n) + after
  }

  lemma TallyOfRound(m: Machine, before: seq<Act>, to: Audience, n: Notice, after: seq<Act>, a: Act)
    ensures Tally(Round(m, before, to, n, after), a) ==
            Tally(m.log, a) + Tally(before, a) + Tally(Tell(m.subs, to, n), a) + Tally(after, a)
  {
    TallyAppend(m.log, before, a);
    TallyAppend(m.log + before, Tell(m.subs, to, n), a);
    TallyAppend(m.log + before + Tell(m.subs, to, n), after, a);
  }

  predicate AboutFramework(acts: seq<Act>) {
    |acts| <= 1 && forall i :: 0 <= i < |acts| ==>
      acts[i] == RequestConn || acts[i] == DeniedWhilePending || acts[i] == LostWhileAcquired
  }

  /** How a round of notices moves one subscriber's account. */
  lemma RoundTally(m: Machine, before: seq<Act>, to: Audience, n: Notice, after: seq<Act>, k: Notice, h: Handle)
    requires Distinct(m.subs) && AboutFramework(before) && AboutFramework(after)
    ensures var log := Round(m, before, to, n, after);
            Tally(log, Admit(h)) == Tally(m.log, Admit(h)) &&
            Tally(log, ActOf(k, h)) ==
              Tally(m.log, ActOf(k, h)) + if k == n && HasAddressed(m.subs, to, h) then 1 else 0
  {
    TallyOfRound(m, before, to, n, after, Admit(h));
    TallyOfRound(m, before, to, n, after, ActOf(k, h));
    TellSaysOnly(m.subs, to, n, Admit(h));
    if k == n {
      TellReachesOnce(m.subs, to, n, h);
    } else {
      TellSaysOnly(m.subs, to, n, ActOf(k, h));
    }
  }

  /** A round of terminal notices that takes its addressees off the list leaves every account balanced. */
  lemma RoundBalances(m: Machine, before: seq<Act>, to: Audience, n: Notice, after: seq<Act>, phase: Phase, h: Handle)
    requires Distinct(m.subs) && BalancedFor(m, h) && n != Granted
    requires AboutFramework(before) && AboutFramework(after)
    ensures BalancedFor(Machine(phase, Without(m.subs, to), Round(m, before, to, n, after)), h)
  {
    ListedWithout(m.subs, to, h);
    RoundTally(m, before, to, n, after, Gone, h);
    RoundTally(m, before, to, n, after, Denied, h);
    RoundTally(m, before, to, n, after, Dropped, h);
  }

  lemma AdmissionsStayBalanced(m: Machine, e: Event, h: Handle)
    requires ListSound(m) && BalancedFor(m, h) && Enabled(m, e)
    ensures BalancedFor(Step(m, e), h)
  {
    var m' := Step(m, e);
    match e
    case Subscribe(s) => SubscribeBalances(m, s, h);
    case Unsubscribe(g) => UnsubscribeBalances(m, g, h);
    case ConnGranted =>
      RoundTally(m, [], ActiveOnes, Granted, [], Gone, h);
      RoundTally(m, [], ActiveOnes, Granted, [], Denied, h);
      RoundTally(m, [], ActiveOnes, Granted, [], Dropped, h);
      assert m.phase == Pending ==> m'.log == Round(m, [], ActiveOnes, Granted, []);
    case ModemReset =>
      RoundBalances(m, [], All, Dropped, [], m'.phase, h);
      assert m'.log == Round(m, [], All, Dropped, []);
    case _ =>
      ConnectionLossBalances(m, e, h);
  }

  lemma ReleaseCompleteBalances(m: Machine, h: Handle)
    requires Distinct(m.subs) && BalancedFor(m, h)
    ensures BalancedFor(OnReleaseComplete(m), h)
  {
    var m' := OnReleaseComplete(m);
    var after := if AnyActive(m'.subs) then [RequestConn] else [];
    RoundBalances(m, [], InactiveOnes, Gone, after, m'.phase, h);
    assert m'.log == Round(m, [], InactiveOnes, Gone, after);
  }

  lemma ConnectionLossBalances(m: Machine, e: Event, h: Handle)
    requires Distinct(m.subs) && BalancedFor(m, h) && (e == ConnReleased || e == ConnDenied)
    ensures BalancedFor(Step(m, e), h)
  {
    var m' := Step(m, e);
    if m.phase == Releasing {
      ReleaseCompleteBalances(m, h);
    } else if m.phase == Acquired && e == ConnReleased {
      RoundBalances(m, [LostWhileAcquired], All, Gone, [], Released, h);
      assert m'.log == Round(m, [LostWhileAcquired], All, Gone, []);
    } else if m.phase == Pending && e == ConnDenied {
      RoundBalances(m, [DeniedWhilePending], All, Denied, [], Released, h);
      assert m'.log == Round(m, [DeniedWhilePending], All, Denied, []);
    }
  }

  lemma TallyThree(log: seq<Act>, x: seq<Act>, y: seq<Act>, a: Act)
    ensures Tally(log + x + y, a) == Tally(log, a) + Tally(x, a) + Tally(y, a)
  {
    TallyAppend(log, x, a);
    TallyAppend(log + x, y, a);
  }

  lemma SubscribeBalances(m: Machine, s: Sub, h: Handle)
    requires BalancedFor(m, h)
    ensures BalancedFor(OnSubscribe(m, s), h)
  {
    AddKeeps(m.subs, s, h);
    SubscribeTally(m, s, Admit(h));
    SubscribeTally(m, s, Closed(h));
    SubscribeTally(m, s, OpenFailed(h));
    SubscribeTally(m, s, Drop(h));
  }

  lemma SubscribeTally(m: Machine, s: Sub, a: Act)
    ensures Tally(OnSubscribe(m, s).log, a) ==
            Tally(m.log, a) + (if a == Admit(s.handle) && !Listed(m.subs, s.handle) then 1 else 0)
            + (if (m.phase == Acquired && a == OpenOk(s.handle)) || (m.phase == Released && a == RequestConn)
               then 1 else 0)
  {
    var admission := Admission(m.subs, s.handle);
    if m.phase == Acquired {
      TallyThree(m.log, [OpenOk(s.handle)], admission, a);
    } else if m.phase == Released {
      TallyThree(m.log, admission, [RequestConn], a);
    } else {
      TallyAppend(m.log, admission, a);
    }
  }

  lemma UnsubscribeTally(m: Machine, g: Handle, a: Act)
    requires m.phase != Released
    ensures Tally(OnUnsubscribe(m, g).log, a) ==
            Tally(m.log, a) + (if a == Closed(g) && !Waits(m.subs, g) then 1 else 0)
            + (if a == ReleaseConn && m.phase != Releasing && OnUnsubscribe(m, g).phase != m.phase then 1 else 0)
  {
    var told := if Waits(m.subs, g) then [] else [Closed(g)];
    assert m.log + [] == m.log;
    TallyThree(m.log, told, [ReleaseConn], a);
    TallyAppend(m.log, told, a);
  }

  lemma UnsubscribeListed(m: Machine, g: Handle, h: Handle)
    requires ListSound(m) && Listed(m.subs, g)
    ensures Listed(OnUnsubscribe(m, g).subs, h) <==> Listed(m.subs, h) && (Waits(m.subs, g) || g != h)
  {
    ListedWithout(m.subs, Only(g), h);
    assert HasAddressed(m.subs, Only(g), h) <==> Listed(m.subs, h) && g == h;
  }

  lemma UnsubscribeBalances(m: Machine, g: Handle, h: Handle)
    requires ListSound(m) && BalancedFor(m, h) && Listed(m.subs, g)
    ensures BalancedFor(OnUnsubscribe(m, g), h)
  {
    UnsubscribeListed(m, g, h);
    UnsubscribeTally(m, g, Admit(h));
    UnsubscribeTally(m, g, Closed(h));
    UnsubscribeTally(m, g, OpenFailed(h));
    UnsubscribeTally(m, g, Drop(h));
  }

  lemma RoundConnections(m: Machine, before: seq<Act>, to: Audience, n: Notice, after: seq<Act>, a: Act)
    requires a in [RequestConn, ReleaseConn, DeniedWhilePending, LostWhileAcquired]
    ensures Tally(Round(m, before, to, n, after), a) == Tally(m.log, a) + Tally(before, a) + Tally(after, a)
  {
    TallyOfRound(m, before, to, n, after, a);
    TellSaysOnly(m.subs, to, n, a);
  }

  /** The account of connections after a round, given how the phase moves. */
  lemma RoundKeepsConnections(m: Machine, before: seq<Act>, to: Audience, n: Notice, after: seq<Act>, m': Machine)
    requires ConnectionsBalance(m) && m'.log == Round(m, before, to, n, after)
    requires AboutFramework(before) && AboutFramework(after)
    requires (if m'.phase == Pending || m'.phase == Acquired then 1 else 0) ==
             (if m.phase == Pending || m.phase == Acquired then 1 else 0)
             + (if RequestConn in after then 1 else 0) - |before|
    requires RequestConn !in before && (after == [] || after == [RequestConn])
    ensures ConnectionsBalance(m')
  {
    RoundConnections(m, before, to, n, after, RequestConn);
    RoundConnections(m, before, to, n, after, ReleaseConn);
    RoundConnections(m, before, to, n, after, DeniedWhilePending);
    RoundConnections(m, before, to, n, after, LostWhileAcquired);
    FewActs(before);
    FewActs(after);
  }

  lemma FewActs(acts: seq<Act>)
    requires AboutFramework(acts)
    ensures forall a :: Tally(acts, a) == if acts != [] && acts[0] == a then 1 else 0
  {}

  lemma RequestsStayBalanced(m: Machine, e: Event)
    requires ConnectionsBalance(m) && Enabled(m, e) && ListSound(m) && (e.Subscribe? || e.Unsubscribe?)
    ensures ConnectionsBalance(Step(m, e))
  {
    if e.Subscribe? {
      SubscribeTally(m, e.sub, RequestConn);
      SubscribeTally(m, e.sub, ReleaseConn);
      SubscribeTally(m, e.sub, DeniedWhilePending);
      SubscribeTally(m, e.sub, LostWhileAcquired);
    } else {
      UnsubscribeTally(m, e.handle, RequestConn);
      UnsubscribeTally(m, e.handle, ReleaseConn);
      UnsubscribeTally(m, e.handle, DeniedWhilePending);
      UnsubscribeTally(m, e.handle, LostWhileAcquired);
    }
  }

  lemma LossesStayBalanced(m: Machine, e: Event)
    requires ConnectionsBalance(m) && (e == ConnReleased || e == ConnDenied)
    ensures ConnectionsBalance(Step(m, e))
  {
    var m' := Step(m, e);
    if m.phase == Releasing {
      var after := if AnyActive(m'.subs) then [RequestConn] else [];
      assert m'.log == Round(m, [], InactiveOnes, Gone, after);
      RoundKeepsConnections(m, [], InactiveOnes, Gone, after, m');
    } else if m.phase == Acquired && e == ConnReleased {
      assert m'.log == Round(m, [LostWhileAcquired], All, Gone, []);
      RoundKeepsConnections(m, [LostWhileAcquired], All, Gone, [], m');
    } else if m.phase == Pending && e == ConnDenied {
      assert m'.log == Round(m, [DeniedWhilePending], All, Denied, []);
      RoundKeepsConnections(m, [DeniedWhilePending], All, Denied, [], m');
    }
  }

  lemma ConnectionsStayBalanced(m: Machine, e: Event)
    requires ConnectionsBalance(m) && Enabled(m, e) && ListSound(m)
    ensures ConnectionsBalance(Step(m, e))
  {
    match e
    case Subscribe(_) => RequestsStayBalanced(m, e);
    case Unsubscribe(_) => RequestsStayBalanced(m, e);
    case ConnReleased => LossesStayBalanced(m, e);
    case ConnDenied => LossesStayBalanced(m, e);
    case ConnGranted =>
      if m.phase == Pending {
        assert Step(m, e).log == Round(m, [], ActiveOnes, Granted, []);
        RoundKeepsConnections(m, [], ActiveOnes, Granted, [], Step(m, e));
      }
    case ModemReset =>
      assert Step(m, e).log == Round(m, [], All, Dropped, []);
      RoundKeepsConnections(m, [], All, Dropped, [], Step(m, e));
  }

  lemma WordsAfterSubscribe(m: Machine, s: Sub, h: Handle)
    ensures ToldOpen(OnSubscribe(m, s).log, h) <==>
            if m.phase == Acquired && h == s.handle then true else ToldOpen(m.log, h)
  {
    var admission := Admission(m.subs, s.handle);
    var start := if m.phase == Acquired then m.log + [OpenOk(s.handle)] else m.log;
    OneMoreAct(m.log, OpenOk(s.handle), h);
    OneMoreAct(start, Admit(s.handle), h);
    OneMoreAct(start + admission, RequestConn, h);
    assert start + [] == start;
  }

  lemma WordsAfterUnsubscribe(m: Machine, g: Handle, h: Handle)
    requires m.phase != Released
    ensures ToldOpen(OnUnsubscribe(m, g).log, h) <==>
            ToldOpen(m.log, h) && (Waits(m.subs, g) || h != g)
  {
    var log := if Waits(m.subs, g) then m.log else m.log + [Closed(g)];
    OneMoreAct(m.log, Closed(g), h);
    OneMoreAct(log, ReleaseConn, h);
  }

  lemma WordsAfterRound(m: Machine, before: seq<Act>, to: Audience, n: Notice, after: seq<Act>, h: Handle)
    requires AboutFramework(before) && AboutFramework(after)
    ensures ToldOpen(Round(m, before, to, n, after), h) <==>
            if HasAddressed(m.subs, to, h) then n == Granted else ToldOpen(m.log, h)
  {
    var start := m.log + before;
    var mid := start + Tell(m.subs, to, n);
    if before != [] {
      OneMoreAct(m.log, before[0], h);
      assert start == m.log + [before[0]];
    } else {
      assert start == m.log;
    }
    TellSettles(start, m.subs, to, n, h);
    if after != [] {
      OneMoreAct(mid, after[0], h);
      assert Round(m, before, to, n, after) == mid + [after[0]];
    } else {
      assert Round(m, before, to, n, after) == mid;
    }
  }

  /** After a terminal round the remaining active subscribers know what they knew, and the others nothing. */
  lemma RoundKeepsOpenKnown(m: Machine, before: seq<Act>, to: Audience, n: Notice, after: seq<Act>, phase: Phase)
    requires Distinct(m.subs) && OpenKnown(m) && n != Granted
    requires AboutFramework(before) && AboutFramework(after)
    requires AnyActive(Without(m.subs, to)) ==> (phase == Acquired <==> m.phase == Acquired)
    ensures OpenKnown(Machine(phase, Without(m.subs, to), Round(m, before, to, n, after)))
  {
    var m' := Machine(phase, Without(m.subs, to), Round(m, before, to, n, after));
    WithoutKeeps(m.subs, to);
    forall s | s in m'.subs && !s.inactive
      ensures ToldOpen(m'.log, s.handle) <==> phase == Acquired
    {
      WordsAfterRound(m, before, to, n, after, s.handle);
      var i :| 0 <= i < |m'.subs| && m'.subs[i] == s;
      assert AnyActive(m'.subs);
    }
    forall h | !Listed(m'.subs, h)
      ensures !ToldOpen(m'.log, h)
    {
      ListedWithout(m.subs, to, h);
      WordsAfterRound(m, before, to, n, after, h);
    }
  }

  lemma GrantKeepsOpenKnown(m: Machine)
    requires Distinct(m.subs) && OpenKnown(m) && m.phase == Pending
    ensures OpenKnown(Step(m, ConnGranted))
  {
    var m' := Step(m, ConnGranted);
    assert m'.log == Round(m, [], ActiveOnes, Granted, []);
    forall h
      ensures ToldOpen(m'.log, h) <==> HasAddressed(m.subs, ActiveOnes, h) || ToldOpen(m.log, h)
    {
      WordsAfterRound(m, [], ActiveOnes, Granted, [], h);
    }
    forall s | s in m.subs && !s.inactive
      ensures HasAddressed(m.subs, ActiveOnes, s.handle)
    {}
    forall h | !Listed(m.subs, h)
      ensures !HasAddressed(m.subs, ActiveOnes, h)
    {}
  }

  lemma SubscribeKeepsOpenKnown(m: Machine, s: Sub)
    requires ListSound(m) && OpenKnown(m) && !s.inactive
    ensures OpenKnown(OnSubscribe(m, s))
  {
    var m' := OnSubscribe(m, s);
    forall t | t in m'.subs && !t.inactive
      ensures ToldOpen(m'.log, t.handle) <==> m'.phase == Acquired
    {
      WordsAfterSubscribe(m, s, t.handle);
    }
    forall h | !Listed(m'.subs, h)
      ensures !ToldOpen(m'.log, h)
    {
      AddKeeps(m.subs, s, h);
      WordsAfterSubscribe(m, s, h);
    }
  }

  lemma UnsubscribeKeepsOpenKnown(m: Machine, g: Handle)
    requires ListSound(m) && OpenKnown(m) && Listed(m.subs, g)
    ensures OpenKnown(OnUnsubscribe(m, g))
  {
    var m' := OnUnsubscribe(m, g);
    forall t | t in m'.subs && !t.inactive
      ensures ToldOpen(m'.log, t.handle) <==> m'.phase == Acquired
    {
      StillTold(m, g, t);
    }
    forall h | !Listed(m'.subs, h)
      ensures !ToldOpen(m'.log, h)
    {
      WordsAfterUnsubscribe(m, g, h);
      UnsubscribeListed(m, g, h);
    }
  }

  lemma StillTold(m: Machine, g: Handle, t: Sub)
    requires ListSound(m) && OpenKnown(m) && Listed(m.subs, g)
    requires t in OnUnsubscribe(m, g).subs && !t.inactive
    ensures ToldOpen(OnUnsubscribe(m, g).log, t.handle) <==> OnUnsubscribe(m, g).phase == Acquired
  {
    var subs := OnUnsubscribe(m, g).subs;
    WithoutKeeps(m.subs, Only(g));
    WordsAfterUnsubscribe(m, g, t.handle);
    assert AnyActive(subs) by { var i :| 0 <= i < |subs| && subs[i] == t; }
    assert t in m.subs && t.handle != g;
  }

  lemma OpenStaysKnown(m: Machine, e: Event)
    requires ListSound(m) && OpenKnown(m) && Enabled(m, e)
    ensures OpenKnown(Step(m, e))
  {
    var m' := Step(m, e);
    WithoutAll(m.subs);
    match e
    case Subscribe(s) => SubscribeKeepsOpenKnown(m, s);
    case Unsubscribe(g) => UnsubscribeKeepsOpenKnown(m, g);
    case ConnGranted => if m.phase == Pending { GrantKeepsOpenKnown(m); }
    case ModemReset =>
      assert m'.log == Round(m, [], All, Dropped, []);
      RoundKeepsOpenKnown(m, [], All, Dropped, [], m'.phase);
    case _ => LossKeepsOpenKnown(m, e);
  }

  lemma LossKeepsOpenKnown(m: Machine, e: Event)
    requires Distinct(m.subs) && OpenKnown(m) && (e == ConnReleased || e == ConnDenied)
    ensures OpenKnown(Step(m, e))
  {
    var m' := Step(m, e);
    if m.phase == Releasing {
      var after := if AnyActive(m'.subs) then [RequestConn] else [];
      RoundKeepsOpenKnown(m, [], InactiveOnes, Gone, after, m'.phase);
      assert m'.log == Round(m, [], InactiveOnes, Gone, after);
    } else if m.phase == Acquired && e == ConnReleased {
      WithoutAll(m.subs);
      RoundKeepsOpenKnown(m, [LostWhileAcquired], All, Gone, [], Released);
      assert m'.log == Round(m, [LostWhileAcquired], All, Gone, []);
    } else if m.phase == Pending && e == ConnDenied {
      WithoutAll(m.subs);
      RoundKeepsOpenKnown(m, [DeniedWhilePending], All, Denied, [], Released);
      assert m'.log == Round(m, [DeniedWhilePending], All, Denied, []);
    }
  }

  // ---------------------------------------------------------------- what each event does

  /** Everyone addressed is sent the notice once, and nothing else is sent. */
  lemma TellSays(subs: seq<Sub>, to: Audience, n: Notice, a: Act)
    requires Distinct(subs)
    ensures Tally(Tell(subs, to, n), a) ==
            if exists s :: s in subs && Addressed(to, s) && a == ActOf(n, s.handle) then 1 else 0
  {
    if h :| a == ActOf(n, h) {
      TellReachesOnce(subs, to, n, h);
      if HasAddressed(subs, to, h) {
        var i :| 0 <= i < |subs| && subs[i].handle == h && Addressed(to, subs[i]);
        assert subs[i] in subs;
      }
    } else {
      TellSaysOnly(subs, to, n, a);
    }
  }

  function Times(b: bool): nat {
    if b then 1 else 0
  }

  /** What a round of notices between two messages adds to the log. */
  lemma RoundSays(m: Machine, before: seq<Act>, to: Audience, n: Notice, after: seq<Act>, a: Act)
    requires Distinct(m.subs) && |before| <= 1 && |after| <= 1
    ensures Tally(Round(m, before, to, n, after), a) ==
            Count(m, a) + Times(a in before) + Times(a in after) +
            Times(exists s :: s in m.subs && Addressed(to, s) && a == ActOf(n, s.handle))
  {
    TallyOfRound(m, before, to, n, after, a);
    TellSays(m.subs, to, n, a);
    FewSay(before, a);
    FewSay(after, a);
  }

  lemma FewSay(acts: seq<Act>, a: Act)
    requires |acts| <= 1
    ensures Tally(acts, a) == Times(a in acts)
  {
    assert acts != [] ==> acts[..0] == [] && acts == [acts[0]];
  }

  /** A grant in PENDING opens the connection: each active subscriber is sent one open-success, knows it is open, and
      nothing else is sent or changed. */
  lemma GrantOpens(m: Machine, a: Act)
    requires Inv(m) && m.phase == Pending
    ensures var m' := Step(m, ConnGranted);
            m'.phase == Acquired && m'.subs == m.subs &&
            (forall s :: s in m.subs && !s.inactive ==> ToldOpen(m'.log, s.handle)) &&
            Count(m', a) == Count(m, a) + Times(exists s :: s in m.subs && !s.inactive && a == OpenOk(s.handle))
  {
    OpenStaysKnown(m, ConnGranted);
    RoundSays(m, [], ActiveOnes, Granted, [], a);
    assert Step(m, ConnGranted).log == Round(m, [], ActiveOnes, Granted, []);
    assert forall s :: Addressed(ActiveOnes, s) && a == ActOf(Granted, s.handle) <==>
                       !s.inactive && a == OpenOk(s.handle);
  }

  /** A denial in PENDING ends it: each subscriber is sent one open-failure and has left the list. */
  lemma DenialEnds(m: Machine, a: Act)
    requires Inv(m) && m.phase == Pending
    ensures var m' := Step(m, ConnDenied);
            m'.phase == Released && m'.subs == [] &&
            Count(m', a) == Count(m, a) + Times(a == DeniedWhilePending) +
                            Times(exists s :: s in m.subs && a == OpenFailed(s.handle))
  {
    WithoutAll(m.subs);
    RoundSays(m, [DeniedWhilePending], All, Denied, [], a);
    assert Step(m, ConnDenied).log == Round(m, [DeniedWhilePending], All, Denied, []);
    assert forall s :: Addressed(All, s) && a == ActOf(Denied, s.handle) <==> a == OpenFailed(s.handle);
  }

  /** A loss in ACQUIRED ends it: each subscriber is sent one close and has left the list. */
  lemma LossEnds(m: Machine, a: Act)
    requires Inv(m) && m.phase == Acquired
    ensures var m' := Step(m, ConnReleased);
            m'.phase == Released && m'.subs == [] &&
            Count(m', a) == Count(m, a) + Times(a == LostWhileAcquired) +
                            Times(exists s :: s in m.subs && a == Closed(s.handle))
  {
    WithoutAll(m.subs);
    RoundSays(m, [LostWhileAcquired], All, Gone, [], a);
    assert Step(m, ConnReleased).log == Round(m, [LostWhileAcquired], All, Gone, []);
    assert forall s :: Addressed(All, s) && a == ActOf(Gone, s.handle) <==> a == Closed(s.handle);
  }

  /** The end of a release in RELEASING: each inactive subscriber is sent one close and leaves the list, the active ones
      stay, and exactly if there are some the connection is requested again. */
  lemma ReleaseCompletes(m: Machine, e: Event, a: Act)
    requires Inv(m) && m.phase == Releasing && (e == ConnReleased || e == ConnDenied)
    ensures var m' := Step(m, e);
            (forall s :: s in m'.subs <==> s in m.subs && !s.inactive) && Distinct(m'.subs) &&
            m'.phase == (if AnyActive(m.subs) then Pending else Released) &&
            Count(m', a) == Count(m, a) + Times(AnyActive(m.subs) && a == RequestConn) +
                            Times(exists s :: s in m.subs && s.inactive && a == Closed(s.handle))
  {
    var m' := Step(m, e);
    WithoutKeeps(m.subs, InactiveOnes);
    ActiveStay(m.subs);
    var after := if AnyActive(m.subs) then [RequestConn] else [];
    RoundSays(m, [], InactiveOnes, Gone, after, a);
    assert m'.log == Round(m, [], InactiveOnes, Gone, after);
    assert forall s :: Addressed(InactiveOnes, s) && a == ActOf(Gone, s.handle) <==>
                       s.inactive && a == Closed(s.handle);
  }

  lemma ActiveStay(subs: seq<Sub>)
    ensures AnyActive(Without(subs, InactiveOnes)) <==> AnyActive(subs)
  {
    var r := Without(subs, InactiveOnes);
    WithoutKeeps(subs, InactiveOnes);
    if i :| 0 <= i < |subs| && !subs[i].inactive {
      assert subs[i] in subs && subs[i] in r;
      var j :| 0 <= j < |r| && r[j] == subs[i];
    }
    if i :| 0 <= i < |r| && !r[i].inactive {
      assert r[i] in r && r[i] in subs;
    }
  }

  /** Any other report of the framework changes nothing. */
  lemma OtherReportsAreIgnored(m: Machine, e: Event)
    requires (e == ConnGranted && m.phase != Pending) ||
             (e == ConnReleased && (m.phase == Released || m.phase == Pending)) ||
             (e == ConnDenied && (m.phase == Released || m.phase == Acquired))
    ensures Step(m, e) == m
  {}

  /** A modem reset sends and asks for nothing; everyone is dropped once, in whatever phase. */
  lemma ResetDrops(m: Machine, a: Act)
    requires ListSound(m)
    ensures var m' := Step(m, ModemReset);
            m'.phase == m.phase && m'.subs == [] &&
            Count(m', a) == Count(m, a) + Times(exists s :: s in m.subs && a == Drop(s.handle))
  {
    WithoutAll(m.subs);
    RoundSays(m, [], All, Dropped, [], a);
    assert Step(m, ModemReset).log == Round(m, [], All, Dropped, []);
    assert forall s :: Addressed(All, s) && a == ActOf(Dropped, s.handle) <==> a == Drop(s.handle);
  }

  /** A subscription in RELEASED requests the connection, one in ACQUIRED is told it is open; the subscriber is on the
      list afterwards, as it was if its handle was listed, and so is everyone else. */
  lemma SubscribeJoins(m: Machine, s: Sub, a: Act)
    requires ListSound(m)
    ensures var m' := Step(m, Subscribe(s));
            m'.phase == (if m.phase == Released then Pending else m.phase) &&
            (forall t :: t in m'.subs <==> t in m.subs || (t == s && !Listed(m.subs, s.handle))) &&
            Count(m', a) == Count(m, a) + Times(a == Admit(s.handle) && !Listed(m.subs, s.handle)) +
                            Times(a == RequestConn && m.phase == Released) +
                            Times(a == OpenOk(s.handle) && m.phase == Acquired)
  {
    SubscribeTally(m, s, a);
  }

  /** The last active subscriber that leaves has the connection released; one that waits for that is told of the close
      only then and stays on the list, inactive, the other ones are told at once and leave it. */
  lemma UnsubscribeLeaves(m: Machine, s: Sub, a: Act)
    requires ListSound(m) && s in m.subs
    ensures var m' := Step(m, Unsubscribe(s.handle));
            (forall t :: t in m'.subs <==> (t in m.subs && t != s) || (s.wait && t == s.(inactive := true))) &&
            m'.phase == (if m'.subs == [] then Released else if AnyActive(m'.subs) then m.phase else Releasing) &&
            Count(m', a) == Count(m, a) + Times(a == Closed(s.handle) && !s.wait) +
                            Times(a == ReleaseConn && m.phase != Releasing && !AnyActive(m'.subs))
  {
    var h := s.handle;
    ByHandle(m.subs, s);
    UnsubscribeTally(m, h, a);
    if Waits(m.subs, h) {
      MarkedMembers(m.subs, s);
    } else {
      WithoutKeeps(m.subs, Only(h));
    }
  }

  /** A listed subscriber is found by its handle. */
  lemma ByHandle(subs: seq<Sub>, s: Sub)
    requires Distinct(subs) && s in subs
    ensures Listed(subs, s.handle) && (Waits(subs, s.handle) <==> s.wait)
    ensures forall t :: t in subs && t.handle == s.handle ==> t == s
  {
    var i :| 0 <= i < |subs| && subs[i] == s;
  }

  /** One that leaves in RELEASED, where nobody is listed, is only told of the close. */
  lemma UnsubscribeReleased(m: Machine, h: Handle, a: Act)
    requires m.phase == Released
    ensures var m' := Step(m, Unsubscribe(h));
            m'.phase == Released && m'.subs == m.subs && Count(m', a) == Count(m, a) + Times(a == Closed(h))
  {
    TallyAppend(m.log, [Closed(h)], a);
    FewSay([Closed(h)], a);
  }

  lemma MarkedMembers(subs: seq<Sub>, s: Sub)
    requires Distinct(subs) && s in subs
    ensures forall t :: t in MarkInactive(subs, s.handle) <==> (t in subs && t != s) || t == s.(inactive := true)
  {
    var r := MarkInactive(subs, s.handle);
    ByHandle(subs, s);
    forall t | t in r
      ensures (t in subs && t != s) || t == s.(inactive := true)
    {
      var i :| 0 <= i < |r| && r[i] == t;
      assert subs[i] in subs;
    }
    forall t | t in subs
      ensures if t == s then s.(inactive := true) in r else t in r
    {
      var i :| 0 <= i < |subs| && subs[i] == t;
      assert r[i] in r;
    }
  }

  // ---------------------------------------------------------------- laws of whole runs

  lemma StepKeepsInv(m: Machine, e: Event)
    requires Inv(m) && Enabled(m, e)
    ensures Inv(Step(m, e))
  {
    ListStaysSound(m, e);
    ConnectionsStayBalanced(m, e);
    OpenStaysKnown(m, e);
    forall h
      ensures BalancedFor(Step(m, e), h)
    {
      AdmissionsStayBalanced(m, e, h);
    }
  }

  lemma {:induction false} RunsKeepInv(es: seq<Event>)
    requires IsRun(es)
    ensures Inv(Run(es))
  {
    if es != [] {
      RunPrefix(es);
      RunsKeepInv(es[..|es| - 1]);
      StepKeepsInv(Run(es[..|es| - 1]), es[|es| - 1]);
    }
  }

  lemma RunPrefix(es: seq<Event>)
    requires IsRun(es) && es != []
    ensures IsRun(es[..|es| - 1]) && Enabled(Run(es[..|es| - 1]), es[|es| - 1])
  {
    var init := es[..|es| - 1];
    forall k | 0 <= k < |init|
      ensures Enabled(Run(init[..k]), init[k])
    {
      assert init[..k] == es[..k] && init[k] == es[k];
    }
  }

  lemma {:induction false} PhaseIsSupported(es: seq<Event>)
    requires IsRun(es) && ModemReset !in es
    ensures PhaseSupported(Run(es))
  {
    if es != [] {
      var init, e := es[..|es| - 1], es[|es| - 1];
      RunPrefix(es);
      PhaseIsSupported(init);
      RunsKeepInv(init);
      assert e != ModemReset;
      StepKeepsSupport(Run(init), e);
    }
  }

  lemma StepKeepsSupport(m: Machine, e: Event)
    requires ListSound(m) && PhaseSupported(m) && Enabled(m, e) && e != ModemReset
    ensures PhaseSupported(Step(m, e))
  {
    if e.Subscribe? {
      var r := Add(m.subs, e.sub);
      if m.phase == Released {
        assert r[0] == e.sub;
      } else if AnyActive(m.subs) {
        var i :| 0 <= i < |m.subs| && !m.subs[i].inactive;
        assert r[i] == m.subs[i];
      }
    }
  }

  /** A modem reset keeps it supported exactly in RELEASED. */
  lemma ResetKeepsSupportExactly(m: Machine)
    ensures PhaseSupported(Step(m, ModemReset)) <==> m.phase == Released
  {
    WithoutAll(m.subs);
  }

  /** A modem reset empties the list without leaving the phase: the one way a connection goes unclaimed. */
  lemma ResetLeavesPhaseUnsupported(h: Handle)
    ensures var es := [Subscribe(Sub(h, false, false)), ModemReset];
            IsRun(es) && Run(es).phase == Pending && Run(es).subs == []
  {
    var es := [Subscribe(Sub(h, false, false)), ModemReset];
    assert es[..1] == [es[0]] && es[..1][..0] == [] && es[..0] == [];
    WithoutAll(Run(es[..1]).subs);
  }

  predicate Impatient(e: Event) {
    e.Subscribe? ==> !e.sub.wait
  }

  /** The manager never asks to wait for the close, and then nobody is inactive and RELEASING is never entered. */
  lemma {:induction false} ReleasingUnreachable(es: seq<Event>)
    requires IsRun(es) && forall e :: e in es ==> Impatient(e)
    ensures Run(es).phase != Releasing
    ensures forall s :: s in Run(es).subs ==> !s.wait && !s.inactive
  {
    if es != [] {
      var init, e := es[..|es| - 1], es[|es| - 1];
      RunPrefix(es);
      ReleasingUnreachable(init);
      var m := Run(init);
      assert Impatient(e);
      WithoutKeeps(m.subs, All);
      if e.Unsubscribe? {
        WithoutKeeps(m.subs, Only(e.handle));
        var r := Without(m.subs, Only(e.handle));
        assert r != [] ==> r[0] in r;
      }
    }
  }

  // ---------------------------------------------------------------- the manager of two machines

  datatype AgpsType = TypeInvalid | Supl | SuplEs | WwanAny | OtherType

  datatype Outcome = OpenSuccess | OpenFailure | CloseReport

  datatype Call =
    | Create(wwan: bool, supl: bool)
    | Request(connHandle: Handle, agpsType: AgpsType)
    | Release(connHandle: Handle)
    | ReportAtl(agpsType: AgpsType, outcome: Outcome)
    | ModemSSR

  datatype Manager = Manager(agnss: Option<Machine>, internet: Option<Machine>, rejected: seq<Handle>)

  predicate UsesAgnss(t: AgpsType) {
    t == TypeInvalid || t == Supl || t == SuplEs
  }

  function OnMachine(mgr: Manager, agnss: bool, e: Event): Manager {
    if agnss then
      if mgr.agnss.Some? then mgr.(agnss := Some(Step(mgr.agnss.value, e))) else mgr
    else
      if mgr.internet.Some? then mgr.(internet := Some(Step(mgr.internet.value, e))) else mgr
  }

  function EventOf(o: Outcome): Event {
    match o
    case OpenSuccess => ConnGranted
    case OpenFailure => ConnDenied
    case CloseReport => ConnReleased
  }

  function ManagerStep(mgr: Manager, c: Call): Manager {
    match c
    case Create(wwan, supl) =>
      Manager(if mgr.agnss == None && supl then Some(Initial) else mgr.agnss,
              if mgr.internet == None && wwan then Some(Initial) else mgr.internet, mgr.rejected)
    case Request(h, t) =>
      if (if UsesAgnss(t) then mgr.agnss else mgr.internet) == None then mgr.(rejected := mgr.rejected + [h])
      else OnMachine(mgr, UsesAgnss(t), Subscribe(Sub(h, false, false)))
    case Release(h) =>
      if mgr.agnss.Some? && Listed(mgr.agnss.value.subs, h) then OnMachine(mgr, true, Unsubscribe(h))
      else if mgr.internet.Some? && Listed(mgr.internet.value.subs, h) then OnMachine(mgr, false, Unsubscribe(h))
      else mgr
    case ReportAtl(t, o) => OnMachine(mgr, UsesAgnss(t), EventOf(o))
    case ModemSSR => OnMachine(OnMachine(mgr, true, ModemReset), false, ModemReset)
  }

  function ManagerRun(cs: seq<Call>): Manager {
    if cs == [] then Manager(None, None, []) else ManagerStep(ManagerRun(cs[..|cs| - 1]), cs[|cs| - 1])
  }

  /** A machine is what some run of its own, by impatient subscribers only, has made it. */
  ghost predicate RunsFromInitial(m: Option<Machine>) {
    m.Some? ==> exists es :: IsRun(es) && Run(es) == m.value && forall e :: e in es ==> Impatient(e)
  }

  lemma ExtendRun(m: Machine, e: Event)
    requires RunsFromInitial(Some(m)) && Enabled(m, e) && Impatient(e)
    ensures RunsFromInitial(Some(Step(m, e)))
  {
    var es :| IsRun(es) && Run(es) == m && forall e :: e in es ==> Impatient(e);
    RunSnoc(es, e);
    assert forall x :: x in es + [e] ==> x in es || x == e;
  }

  lemma RunSnoc(es: seq<Event>, e: Event)
    requires IsRun(es) && Enabled(Run(es), e)
    ensures IsRun(es + [e]) && Run(es + [e]) == Step(Run(es), e)
  {
    var longer := es + [e];
    assert longer[..|longer| - 1] == es;
    forall k | 0 <= k < |longer|
      ensures Enabled(Run(longer[..k]), longer[k])
    {
      assert k < |es| ==> longer[..k] == es[..k] && longer[k] == es[k];
    }
  }

  /** Whatever calls the manager gets, each of its machines only ever makes runs of the protocol. */
  lemma {:induction false} ManagerMakesRuns(cs: seq<Call>)
    ensures RunsFromInitial(ManagerRun(cs).agnss) && RunsFromInitial(ManagerRun(cs).internet)
  {
    if cs != [] {
      ManagerMakesRuns(cs[..|cs| - 1]);
      CallMakesRuns(ManagerRun(cs[..|cs| - 1]), cs[|cs| - 1]);
    }
  }

  lemma CallMakesRuns(mgr: Manager, c: Call)
    requires RunsFromInitial(mgr.agnss) && RunsFromInitial(mgr.internet)
    ensures RunsFromInitial(ManagerStep(mgr, c).agnss) && RunsFromInitial(ManagerStep(mgr, c).internet)
  {
    match c
    case Create(_, _) =>
      assert IsRun([]) && Run([]) == Initial;
    case Request(h, t) => OneMachineMoves(mgr, UsesAgnss(t), Subscribe(Sub(h, false, false)));
    case Release(h) =>
      if mgr.agnss.Some? && Listed(mgr.agnss.value.subs, h) {
        OneMachineMoves(mgr, true, Unsubscribe(h));
      } else if mgr.internet.Some? && Listed(mgr.internet.value.subs, h) {
        OneMachineMoves(mgr, false, Unsubscribe(h));
      }
    case ReportAtl(t, o) => OneMachineMoves(mgr, UsesAgnss(t), EventOf(o));
    case ModemSSR =>
      OneMachineMoves(mgr, true, ModemReset);
      OneMachineMoves(OnMachine(mgr, true, ModemReset), false, ModemReset);
  }

  lemma OneMachineMoves(mgr: Manager, agnss: bool, e: Event)
    requires RunsFromInitial(mgr.agnss) && RunsFromInitial(mgr.internet) && Impatient(e)
    requires var m := if agnss then mgr.agnss else mgr.internet; m.Some? ==> Enabled(m.value, e)
    ensures RunsFromInitial(OnMachine(mgr, agnss, e).agnss) && RunsFromInitial(OnMachine(mgr, agnss, e).internet)
  {
    var m := if agnss then mgr.agnss else mgr.internet;
    if m.Some? {
      ExtendRun(m.value, e);
    }
  }

  /** In every run of manager calls the laws hold of both machines, and neither is ever RELEASING. */
  lemma ManagerKeepsLaws(cs: seq<Call>, m: Machine)
    requires ManagerRun(cs).agnss == Some(m) || ManagerRun(cs).internet == Some(m)
    ensures Inv(m) && m.phase != Releasing
  {
    ManagerMakesRuns(cs);
    var es :| IsRun(es) && Run(es) == m && forall e :: e in es ==> Impatient(e);
    RunsKeepInv(es);
    ReleasingUnreachable(es);
  }

  // ---------------------------------------------------------------- what each call reaches

  /** The machine a call with this type is for, and the other one. */
  function Reached(mgr: Manager, t: AgpsType): Option<Machine> {
    if t == WwanAny || t == OtherType then mgr.internet else mgr.agnss
  }

  function Unreached(mgr: Manager, t: AgpsType): Option<Machine> {
    if t == WwanAny || t == OtherType then mgr.agnss else mgr.internet
  }

  /** A request puts the handle on the list of its machine, or is rejected if there is none. */
  lemma RequestReaches(mgr: Manager, h: Handle, t: AgpsType)
    ensures var mgr' := ManagerStep(mgr, Request(h, t));
            var m, m' := Reached(mgr, t), Reached(mgr', t);
            Unreached(mgr', t) == Unreached(mgr, t) && (m'.Some? <==> m.Some?) &&
            (m.Some? ==> Listed(m'.value.subs, h) && mgr'.rejected == mgr.rejected) &&
            (m == None ==> mgr'.rejected == mgr.rejected + [h])
  {
    if Reached(mgr, t).Some? {
      AddKeeps(Reached(mgr, t).value.subs, Sub(h, false, false), h);
    }
  }

  /** An open-success in PENDING opens the connection, an open-failure ends it, a close in ACQUIRED ends it, and either
      of the last two completes a release; anything else changes nothing. */
  lemma ReportReaches(mgr: Manager, t: AgpsType, o: Outcome, m: Machine)
    requires Reached(mgr, t) == Some(m) && Inv(m)
    ensures var mgr' := ManagerStep(mgr, ReportAtl(t, o));
            Unreached(mgr', t) == Unreached(mgr, t) && mgr'.rejected == mgr.rejected && Reached(mgr', t).Some? &&
            var m' := Reached(mgr', t).value;
            if o == OpenSuccess && m.phase == Pending then
              m'.phase == Acquired && forall s :: s in m.subs && !s.inactive ==> ToldOpen(m'.log, s.handle)
            else if o == OpenFailure && m.phase == Pending then
              m'.phase == Released && forall s :: s in m.subs ==>
                Count(m', OpenFailed(s.handle)) == Count(m, OpenFailed(s.handle)) + 1
            else if o == CloseReport && m.phase == Acquired then
              m'.phase == Released && forall s :: s in m.subs ==>
                Count(m', Closed(s.handle)) == Count(m, Closed(s.handle)) + 1
            else if o != OpenSuccess && m.phase == Releasing then
              m'.phase == if AnyActive(m.subs) then Pending else Released
            else m' == m
  {
    if o == OpenSuccess && m.phase == Pending {
      GrantOpens(m, RequestConn);
    } else if o == OpenFailure && m.phase == Pending {
      forall s | s in m.subs
        ensures Count(Step(m, ConnDenied), OpenFailed(s.handle)) == Count(m, OpenFailed(s.handle)) + 1
      {
        DenialEnds(m, OpenFailed(s.handle));
      }
    } else if o == CloseReport && m.phase == Acquired {
      forall s | s in m.subs
        ensures Count(Step(m, ConnReleased), Closed(s.handle)) == Count(m, Closed(s.handle)) + 1
      {
        LossEnds(m, Closed(s.handle));
      }
    } else if o != OpenSuccess && m.phase == Releasing {
      ReleaseCompletes(m, EventOf(o), RequestConn);
    }
  }

  /** A release reaches the machine that lists the handle, the AGNSS one first, and leaves it no active subscriber with
      that handle; it is ignored if none does. */
  lemma ReleaseReaches(mgr: Manager, h: Handle)
    requires (mgr.agnss.Some? ==> ListSound(mgr.agnss.value)) && (mgr.internet.Some? ==> ListSound(mgr.internet.value))
    ensures var mgr' := ManagerStep(mgr, Release(h));
            mgr'.rejected == mgr.rejected &&
            if mgr.agnss.Some? && Listed(mgr.agnss.value.subs, h) then
              mgr'.internet == mgr.internet && mgr'.agnss.Some? &&
              forall s :: s in mgr'.agnss.value.subs && s.handle == h ==> s.inactive
            else if mgr.internet.Some? && Listed(mgr.internet.value.subs, h) then
              mgr'.agnss == mgr.agnss && mgr'.internet.Some? &&
              forall s :: s in mgr'.internet.value.subs && s.handle == h ==> s.inactive
            else mgr' == mgr
  {
    if mgr.agnss.Some? && Listed(mgr.agnss.value.subs, h) {
      LeavesNoActive(mgr.agnss.value, h);
    } else if mgr.internet.Some? && Listed(mgr.internet.value.subs, h) {
      LeavesNoActive(mgr.internet.value, h);
    }
  }

  lemma LeavesNoActive(m: Machine, h: Handle)
    requires ListSound(m) && Listed(m.subs, h)
    ensures forall t :: t in Step(m, Unsubscribe(h)).subs && t.handle == h ==> t.inactive
  {
    var i :| 0 <= i < |m.subs| && m.subs[i].handle == h;
    UnsubscribeLeaves(m, m.subs[i], RequestConn);
    ByHandle(m.subs, m.subs[i]);
  }

  /** A creation makes the machines asked for that are not there, RELEASED and empty; a modem reset empties both. */
  lemma CreateAndResetReach(mgr: Manager, wwan: bool, supl: bool)
    ensures var made := ManagerStep(mgr, Create(wwan, supl));
            made.rejected == mgr.rejected &&
            made.agnss == (if mgr.agnss.Some? || !supl then mgr.agnss else Some(Machine(Released, [], []))) &&
            made.internet == if mgr.internet.Some? || !wwan then mgr.internet else Some(Machine(Released, [], []))
    ensures var reset := ManagerStep(mgr, ModemSSR);
            reset.rejected == mgr.rejected && (reset.agnss.Some? <==> mgr.agnss.Some?) &&
            (reset.internet.Some? <==> mgr.internet.Some?) &&
            (mgr.agnss.Some? ==> reset.agnss.value.subs == [] && reset.agnss.value.phase == mgr.agnss.value.phase) &&
            (mgr.internet.Some? ==>
               reset.internet.value.subs == [] && reset.internet.value.phase == mgr.internet.value.phase)
  {
    if mgr.agnss.Some? {
      WithoutAll(mgr.agnss.value.subs);
    }
    if mgr.internet.Some? {
      WithoutAll(mgr.internet.value.subs);
    }
  }

  // ---------------------------------------------------------------- when the manager's machines stay supported

  ghost predicate Supported(mgr: Manager) {
    (mgr.agnss.Some? ==> PhaseSupported(mgr.agnss.value)) && (mgr.internet.Some? ==> PhaseSupported(mgr.internet.value))
  }

  predicate Idle(mgr: Manager) {
    (mgr.agnss.Some? ==> mgr.agnss.value.phase == Released) &&
    (mgr.internet.Some? ==> mgr.internet.value.phase == Released)
  }

  lemma EventKeepsSupport(cs: seq<Call>, agnss: bool, e: Event)
    requires Supported(ManagerRun(cs)) && e != ModemReset
    requires var m := if agnss then ManagerRun(cs).agnss else ManagerRun(cs).internet; m.Some? ==> Enabled(m.value, e)
    ensures Supported(OnMachine(ManagerRun(cs), agnss, e))
  {
    var m := if agnss then ManagerRun(cs).agnss else ManagerRun(cs).internet;
    if m.Some? {
      ManagerKeepsLaws(cs, m.value);
      StepKeepsSupport(m.value, e);
    }
  }

  /** Every call but a modem reset keeps the phases of both machines supported, and a modem reset does exactly if both
      are RELEASED. */
  lemma CallKeepsSupportExactly(cs: seq<Call>, c: Call)
    requires Supported(ManagerRun(cs))
    ensures Supported(ManagerStep(ManagerRun(cs), c)) <==> (c == ModemSSR ==> Idle(ManagerRun(cs)))
  {
    var mgr := ManagerRun(cs);
    match c
    case Create(_, _) =>
    case Request(h, t) => EventKeepsSupport(cs, UsesAgnss(t), Subscribe(Sub(h, false, false)));
    case Release(h) =>
      if mgr.agnss.Some? && Listed(mgr.agnss.value.subs, h) {
        EventKeepsSupport(cs, true, Unsubscribe(h));
      } else if mgr.internet.Some? && Listed(mgr.internet.value.subs, h) {
        EventKeepsSupport(cs, false, Unsubscribe(h));
      }
    case ReportAtl(t, o) => EventKeepsSupport(cs, UsesAgnss(t), EventOf(o));
    case ModemSSR =>
      if mgr.agnss.Some? {
        ResetKeepsSupportExactly(mgr.agnss.value);
      }
      if mgr.internet.Some? {
        ResetKeepsSupportExactly(mgr.internet.value);
      }
  }

  ghost predicate AlwaysSupported(cs: seq<Call>) {
    Supported(ManagerRun(cs)) && (cs != [] ==> AlwaysSupported(cs[..|cs| - 1]))
  }

  predicate ResetsWhenIdle(cs: seq<Call>) {
    cs != [] ==>
      ResetsWhenIdle(cs[..|cs| - 1]) && (cs[|cs| - 1] == ModemSSR ==> Idle(ManagerRun(cs[..|cs| - 1])))
  }

  /** In every run of manager calls both phases are supported all along exactly if each modem reset finds both machines
      RELEASED; so always without one. */
  lemma {:induction false} ManagerStaysSupportedExactly(cs: seq<Call>)
    ensures AlwaysSupported(cs) <==> ResetsWhenIdle(cs)
  {
    if cs != [] {
      var init := cs[..|cs| - 1];
      ManagerStaysSupportedExactly(init);
      if Supported(ManagerRun(init)) {
        CallKeepsSupportExactly(init, cs[|cs| - 1]);
      }
    }
  }
}
