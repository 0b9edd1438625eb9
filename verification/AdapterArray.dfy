/** The compact array of adapters (gps/core/LocApiBase.cpp) and the loops that deliver events to them. */
module AdapterArray {
  import opened Wrappers

  const MAX_ADAPTERS := 10

  /** A slot of `mLocAdapters`; `None` is the null pointer. */
  type Slot = Option<nat>

  /** `LocOpenMsg`, for a newcomer or just to renew the event mask, and `LocCloseMsg`. */
  datatype Message = Open(adapter: Slot) | Close

  // ---------------------------------------------------------------- what the calls do to the list of adapters

  function IndexOf(l: seq<nat>, a: nat): (i: nat)
    requires a in l
    ensures i < |l| && l[i] == a
  {
    if l[0] == a then 0 else 1 + IndexOf(l[1..], a)
  }

  function Added(l: seq<nat>, a: Slot): seq<nat> {
    if a.None? || a.value in l || |l| >= MAX_ADAPTERS then l else l + [a.value]
  }

  /** The last adapter moves to the place of the one that leaves. */
  function Removed(l: seq<nat>, a: Slot): seq<nat> {
    if a.None? || a.value !in l then l else l[IndexOf(l, a.value) := l[|l| - 1]][..|l| - 1]
  }

  function AddMessages(l: seq<nat>, a: Slot): seq<Message> {
    if Added(l, a) == l then [] else [Open(a)]
  }

  function RemoveMessages(l: seq<nat>, a: Slot): seq<Message> {
    if Removed(l, a) == l then [] else if Removed(l, a) == [] then [Close] else [Open(None)]
  }

  /** The adapters called, from the `i`th on, until one handles the event. */
  function UntilHandled(l: seq<nat>, i: nat, handles: nat -> bool): seq<nat>
    requires i <= |l|
    decreases |l| - i
  {
    if i == |l| then [] else if handles(l[i]) then [l[i]] else [l[i]] + UntilHandled(l, i + 1, handles)
  }

  // ---------------------------------------------------------------- the array

  /** No adapter after a null pointer, and none twice. */
  ghost predicate Compact(slots: seq<Slot>) {
    forall i, j :: 0 <= i < j < |slots| ==>
      (slots[i].None? ==> slots[j].None?) && (slots[i].Some? ==> slots[i] != slots[j])
  }

  function Listed(slots: seq<Slot>): seq<nat> {
    if slots == [] || slots[0].None? then [] else [slots[0].value] + Listed(slots[1..])
  }

  lemma {:induction false} ListedIs(slots: seq<Slot>, n: nat)
    requires n <= |slots| && (forall i :: 0 <= i < n ==> slots[i].Some?) && (n < |slots| ==> slots[n].None?)
    ensures |Listed(slots)| == n && forall i :: 0 <= i < n ==> Listed(slots)[i] == slots[i].value
  {
    if n > 0 {
      ListedIs(slots[1..], n - 1);
    }
  }

  lemma {:induction false} ListedLength(slots: seq<Slot>)
    ensures var n := |Listed(slots)|;
            n <= |slots| && (forall i :: 0 <= i < n ==> slots[i] == Some(Listed(slots)[i])) &&
            (n < |slots| ==> slots[n].None?)
  {
    if slots != [] && slots[0].Some? {
      ListedLength(slots[1..]);
    }
  }

  // ---------------------------------------------------------------- every run

  datatype Event = Add(adapter: Slot) | Remove(adapter: Slot)

  function Run(es: seq<Event>): seq<nat> {
    if es == [] then []
    else
      var l := Run(es[..|es| - 1]);
      match es[|es| - 1]
      case Add(a) => Added(l, a)
      case Remove(a) => Removed(l, a)
  }

  /** Who is registered: an adapter that came while there was room and has not left since. */
  function Registered(es: seq<Event>): set<nat> {
    if es == [] then {}
    else
      var s := Registered(es[..|es| - 1]);
      match es[|es| - 1]
      case Add(a) => if a.Some? && |s| < MAX_ADAPTERS then s + {a.value} else s
      case Remove(a) => if a.Some? then s - {a.value} else s
  }

  function Elements(l: seq<nat>): set<nat> {
    set a | a in l
  }

  ghost predicate Distinct(l: seq<nat>) {
    forall i, j :: 0 <= i < j < |l| ==> l[i] != l[j]
  }

  lemma {:induction false} ElementsCount(l: seq<nat>)
    requires Distinct(l)
    ensures |Elements(l)| == |l|
  {
    if l != [] {
      ElementsCount(l[1..]);
      assert Elements(l) == {l[0]} + Elements(l[1..]);
    }
  }

  /** A removal takes out one adapter and keeps the others, each once. */
  lemma RemovedIsExact(l: seq<nat>, a: Slot)
    requires Distinct(l)
    ensures Distinct(Removed(l, a))
    ensures forall b :: b in Removed(l, a) <==> b in l && Some(b) != a
  {
    if a.Some? && a.value in l {
      var r, i, n := Removed(l, a), IndexOf(l, a.value), |l| - 1;
      assert forall k :: 0 <= k < n ==> r[k] == if k == i then l[n] else l[k];
      forall b | b in l && Some(b) != a
        ensures b in r
      {
        var k :| 0 <= k < |l| && l[k] == b;
        assert k == n ==> i < n && r[i] == b;
        assert k < n ==> r[k] == b;
      }
    }
  }

  /** In every run the list holds exactly the registered adapters, each once. */
  lemma {:induction false} RunsStayExact(es: seq<Event>)
    ensures Distinct(Run(es)) && Elements(Run(es)) == Registered(es) && |Run(es)| == |Registered(es)| <= MAX_ADAPTERS
  {
    if es != [] {
      var e, l := es[|es| - 1], Run(es[..|es| - 1]);
      RunsStayExact(es[..|es| - 1]);
      match e {
        case Add(a) =>
          assert a.Some? ==> Elements(l + [a.value]) == Elements(l) + {a.value};
        case Remove(a) =>
          RemovedIsExact(l, a);
          assert a.Some? ==> Elements(Removed(l, a)) == Elements(l) - {a.value};
      }
      ElementsCount(Run(es));
    }
  }

  /** An addition opens the link for the newcomer, once, exactly if it is new and there is room. */
  lemma OpenExactly(l: seq<nat>, a: Slot)
    ensures AddMessages(l, a) == if a.Some? && a.value !in l && |l| < MAX_ADAPTERS then [Open(a)] else []
  {}

  /** The link to the engine is closed exactly by the removal that leaves no adapter; any other removal of a registered
      one renews the event mask. */
  lemma CloseExactly(l: seq<nat>, a: Slot)
    requires Distinct(l)
    ensures RemoveMessages(l, a) ==
            if a.None? || a.value !in l then [] else if l == [a.value] then [Close] else [Open(None)]
  {
    RemovedIsExact(l, a);
  }

  /** All messages of a run. */
  function Messages(es: seq<Event>): seq<Message> {
    if es == [] then []
    else
      var l := Run(es[..|es| - 1]);
      Messages(es[..|es| - 1]) +
      match es[|es| - 1]
      case Add(a) => AddMessages(l, a)
      case Remove(a) => RemoveMessages(l, a)
  }

  /** In every run the last message leaves the link open exactly while an adapter is registered. */
  lemma {:induction false} LinkFollowsAdapters(es: seq<Event>)
    ensures Registered(es) != {} <==> Messages(es) != [] && Messages(es)[|Messages(es)| - 1] != Close
  {
    EmptyTogether(es);
    if es != [] {
      var init, e := es[..|es| - 1], es[|es| - 1];
      LinkFollowsAdapters(init);
      EmptyTogether(init);
      LinkFollowsStep(Run(init), e, Messages(init));
    }
  }

  lemma EmptyTogether(es: seq<Event>)
    ensures Distinct(Run(es)) && (Run(es) == [] <==> Registered(es) == {})
  {
    RunsStayExact(es);
  }

  lemma LinkFollowsStep(l: seq<nat>, e: Event, sent: seq<Message>)
    requires Distinct(l) && (l != [] <==> sent != [] && sent[|sent| - 1] != Close)
    ensures var l' := match e case Add(a) => Added(l, a) case Remove(a) => Removed(l, a);
            var sent' := sent + match e case Add(a) => AddMessages(l, a) case Remove(a) => RemoveMessages(l, a);
            l' != [] <==> sent' != [] && sent'[|sent'| - 1] != Close
  {
    match e {
      case Add(a) => OpenExactly(l, a);
      case Remove(a) =>
        CloseExactly(l, a);
        RemovedIsExact(l, a);
    }
  }

  /** The adapters called are the first ones, none but the last of them handles the event, and some are left out only
      if the last one called does. */
  ghost predicate CallsUntilHandled(l: seq<nat>, i: nat, r: seq<nat>, handles: nat -> bool) {
    i + |r| <= |l| && r == l[i..i + |r|] && (i < |l| ==> r != []) &&
    (forall k :: 0 <= k < |r| - 1 ==> !handles(r[k])) && (i + |r| < |l| ==> handles(r[|r| - 1]))
  }

  lemma {:induction false} UntilHandledIsExact(l: seq<nat>, i: nat, handles: nat -> bool)
    requires i <= |l|
    ensures CallsUntilHandled(l, i, UntilHandled(l, i, handles), handles)
    decreases |l| - i
  {
    if i < |l| && !handles(l[i]) {
      UntilHandledIsExact(l, i + 1, handles);
    }
  }

  lemma LastMoved(slots: seq<Slot>, after: seq<Slot>, j: nat)
    requires Compact(slots) && j < |Listed(slots)|
    requires var n := |Listed(slots)| - 1; n < |slots| && after == slots[j := slots[n]][n := None]
    ensures var l := Listed(slots); Compact(after) && Listed(after) == l[j := l[|l| - 1]][..|l| - 1]
  {
    var l := Listed(slots);
    ListedLength(slots);
    LastMovedAt(slots, l, after, j);
    ListedAs(after, l[j := l[|l| - 1]][..|l| - 1]);
  }

  lemma LastMovedAt(slots: seq<Slot>, l: seq<nat>, after: seq<Slot>, j: nat)
    requires Compact(slots) && j < |l| <= |slots| && forall i :: 0 <= i < |l| ==> slots[i] == Some(l[i])
    requires after == slots[j := slots[|l| - 1]][|l| - 1 := None] && (|l| < |slots| ==> slots[|l|].None?)
    ensures Compact(after) && after[|l| - 1].None?
    ensures forall i :: 0 <= i < |l| - 1 ==> after[i] == Some(l[j := l[|l| - 1]][..|l| - 1][i])
  {}

  lemma ListedAs(slots: seq<Slot>, l: seq<nat>)
    requires |l| < |slots| && slots[|l|].None? && forall i :: 0 <= i < |l| ==> slots[i] == Some(l[i])
    ensures Listed(slots) == l
  {
    ListedIs(slots, |l|);
  }

  class LocApiBase {
    const adapters: array<Slot>
    ghost var sent: seq<Message>

    constructor ()
      ensures Valid() && fresh(adapters) && Contents() == [] && sent == []
    {
      adapters := new Slot[MAX_ADAPTERS](_ => None);
      sent := [];
    }

    ghost predicate Valid()
      reads this, adapters
    {
      adapters.Length == MAX_ADAPTERS && Compact(adapters[..])
    }

    ghost function Contents(): seq<nat>
      reads this, adapters
    {
      Listed(adapters[..])
    }

    method AddAdapter(adapter: Slot)
      requires Valid()
      modifies adapters, `sent
      ensures Valid()
      ensures Contents() == Added(old(Contents()), adapter)
      ensures sent == old(sent) + AddMessages(old(Contents()), adapter)
    {
      ListedLength(adapters[..]);
      ghost var l := Contents();
      var i := 0;
      while i < MAX_ADAPTERS && adapters[i] != adapter
        invariant 0 <= i <= |l| && adapters[..] == old(adapters[..]) && sent == old(sent)
        invariant forall k :: 0 <= k < i ==> adapters[k] != adapter
      {
        if adapters[i].None? {
          adapters[i] := adapter;
          sent := sent + [Open(adapter)];
          ListedIs(adapters[..], i + 1);
          assert Contents() == l + [adapter.value];
          break;
        }
        i := i + 1;
      }
    }

    /** The last adapter goes to slot `j`; answers the slot it leaves, from which on none is taken. */
    method MoveLast(j: nat) returns (i: nat)
      requires Valid() && j < |Contents()|
      modifies adapters, `sent
      ensures Valid() && j <= i < MAX_ADAPTERS && forall k :: i <= k < MAX_ADAPTERS ==> adapters[k].None?
      ensures Contents() == old(Contents())[j := old(Contents())[|old(Contents())| - 1]][..|old(Contents())| - 1]
      ensures sent == old(sent) + [if |old(Contents())| == 1 then Close else Open(None)]
    {
      ListedLength(adapters[..]);
      ghost var l := Contents();
      adapters[j] := None;
      i := j + 1;
      while i < MAX_ADAPTERS && adapters[i].Some?
        invariant j + 1 <= i <= |l| && sent == old(sent)
        invariant adapters[..] == old(adapters[..])[j := None]
      {
        i := i + 1;
      }
      assert i == |l|;
      i := i - 1;
      adapters[j] := adapters[i];
      adapters[i] := None;
      if i == 0 {
        sent := sent + [Close];
      } else {
        sent := sent + [Open(None)];
      }
      LastMoved(old(adapters[..]), adapters[..], j);
    }

    /** What happens when the adapter is found in slot `j`. */
    method FillHole(j: nat, ghost l: seq<nat>) returns (i: nat)
      requires Valid() && l == Contents() && j < |l| && IndexOf(l, l[j]) == j
      modifies adapters, `sent
      ensures Valid() && j <= i < MAX_ADAPTERS && forall k :: i <= k < MAX_ADAPTERS ==> adapters[k].None?
      ensures Contents() == Removed(l, Some(l[j]))
      ensures sent == old(sent) + RemoveMessages(l, Some(l[j]))
    {
      i := MoveLast(j);
    }

    method RemoveAdapter(adapter: Slot)
      requires Valid()
      modifies adapters, `sent
      ensures Valid()
      ensures Contents() == Removed(old(Contents()), adapter)
      ensures sent == old(sent) + RemoveMessages(old(Contents()), adapter)
    {
      ListedLength(adapters[..]);
      ghost var l := Contents();
      var i := 0;
      while i < MAX_ADAPTERS && adapters[i].Some?
        invariant 0 <= i <= |l| && adapters[..] == old(adapters[..]) && sent == old(sent)
        invariant forall k :: 0 <= k < i ==> adapters[k] != adapter
      {
        if adapters[i] == adapter {
          assert adapter == Some(l[i]) && forall k :: 0 <= k < i ==> l[k] != l[i];
          i := FillHole(i, l);
          // no slot from here on is taken: the loop is over
          return;
        }
        i := i + 1;
      }
    }

    // ---------------------------------------------------------------- delivery

    /** `TO_ALL_ADAPTERS`: answers the adapters called, in order. */
    method DeliverToAll() returns (called: seq<nat>)
      requires Valid()
      ensures called == Contents()
    {
      ListedLength(adapters[..]);
      called := [];
      var i := 0;
      while i < MAX_ADAPTERS && adapters[i].Some?
        invariant 0 <= i <= |Contents()| && called == Contents()[..i]
      {
        called := called + [adapters[i].value];
        i := i + 1;
      }
    }

    /** `TO_1ST_HANDLING_ADAPTER`. */
    method DeliverToFirstHandling(handles: nat -> bool) returns (called: seq<nat>)
      requires Valid()
      ensures called == UntilHandled(Contents(), 0, handles)
    {
      ListedLength(adapters[..]);
      ghost var l := Contents();
      ghost var answer := UntilHandled(l, 0, handles);
      called := [];
      var i := 0;
      while i < MAX_ADAPTERS && adapters[i].Some?
        invariant 0 <= i <= |l| && answer == called + UntilHandled(l, i, handles)
      {
        assert adapters[..][i] == adapters[i] && l[i] == adapters[i].value;
        ghost var before, rest := called, UntilHandled(l, i + 1, handles);
        assert (before + [l[i]]) + rest == before + ([l[i]] + rest);
        called := called + [adapters[i].value];
        if handles(adapters[i].value) {
          return;
        }
        i := i + 1;
      }
    }
  }
}
