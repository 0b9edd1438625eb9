/**
 Subscriptions to system-status data items and their fan-out (gps/core/SystemStatusOsObserver.cpp).

 Who subscribes to what is kept twice: per client and per item.  The framework is told of an item when the item
 gains its first client and told to stop when it loses its last.  Each queued message is one step.  The framework
 is a ghost: the set of items announced to the subscription object and not yet withdrawn.
 */
module OsObserver {
  import opened SetMap
  import opened Wrappers

  type Client = nat
  type Item = nat
  type Value = int

  /** What one call to a client's `notify` carries. */
  datatype Message = Message(to: Client, values: map<Item, Value>)

  /** A reported data item; `recorded` is whether SystemStatus accepts it. */
  datatype Report = Report(id: Item, value: Value, recorded: bool)

  datatype Observer = Observer(
    itemsOf: map<Client, set<Item>>,
    clientsOf: map<Item, set<Client>>,
    connected: bool,
    announced: set<Item>,
    cache: map<Item, Value>)

  const Initial := Observer(map[], map[], false, {}, map[])

  datatype Event =
    | SetSubscriptionObj
    | Subscribe(items: set<Item>, client: Client, toRequestData: bool)
    | UpdateSubscription(items: set<Item>, client: Client)
    | Unsubscribe(items: set<Item>, client: Client)
    | UnsubscribeAll(client: Client)
    | Notify(reports: seq<Option<Report>>)

  // ---------------------------------------------------------------- one message

  /** What the framework knows after being told of some items and to forget others. */
  function Tell(o: Observer, subscribe: set<Item>, unsubscribe: set<Item>): set<Item> {
    if o.connected then o.announced + subscribe - unsubscribe else o.announced
  }

  function OnSubscribe(o: Observer, items: set<Item>, c: Client, toRequestData: bool): Observer {
    o.(clientsOf := Added(o.clientsOf, items, {c}), itemsOf := Added(o.itemsOf, {c}, items),
       announced := Tell(o, if toRequestData then items else NewKeys(o.clientsOf, items, {c}), {}))
  }

  /** The items the client keeps lose it on the item side; the ones it drops do not. */
  function OnUpdate(o: Observer, items: set<Item>, c: Client): Observer {
    var kept, added := Get(o.itemsOf, c) * items, items - Get(o.itemsOf, c);
    var trimmed := Trimmed(o.clientsOf, kept, {c});
    o.(itemsOf := Replaced(o.itemsOf, c, items), clientsOf := Added(trimmed, added, {c}),
       announced := Tell(o, NewKeys(trimmed, added, {c}), GoneKeys(o.clientsOf, kept, {c})))
  }

  function OnUnsubscribe(o: Observer, items: set<Item>, c: Client): Observer {
    var unused := GoneVals(o.itemsOf, {c}, items);
    o.(itemsOf := Trimmed(o.itemsOf, {c}, items), clientsOf := Trimmed(o.clientsOf, unused, {c}),
       announced := Tell(o, {}, GoneKeys(o.clientsOf, unused, {c})))
  }

  function OnUnsubscribeAll(o: Observer, c: Client): Observer {
    var items := Get(o.itemsOf, c);
    if items == {} then o
    else o.(itemsOf := o.itemsOf - {c}, clientsOf := Trimmed(o.clientsOf, items, {c}),
            announced := Tell(o, {}, GoneKeys(o.clientsOf, items, {c})))
  }

  /** The cache after a list of reports, and the items whose cached value they changed. */
  function Refresh(cache: map<Item, Value>, reports: seq<Option<Report>>): (r: (map<Item, Value>, set<Item>))
    ensures r.1 <= r.0.Keys && cache.Keys <= r.0.Keys
  {
    if reports == [] then (cache, {})
    else
      var (before, updated) := Refresh(cache, reports[..|reports| - 1]);
      var last := reports[|reports| - 1];
      if last == None || !last.value.recorded then (before, updated)
      else if last.value.id in before && before[last.value.id] == last.value.value then (before, updated)
      else (before[last.value.id := last.value.value], updated + {last.value.id})
  }

  function Step(o: Observer, e: Event): Observer {
    match e
    case SetSubscriptionObj => o.(connected := true, announced := o.clientsOf.Keys)
    case Subscribe(items, c, toRequestData) => OnSubscribe(o, items, c, toRequestData)
    case UpdateSubscription(items, c) => OnUpdate(o, items, c)
    case Unsubscribe(items, c) => OnUnsubscribe(o, items, c)
    case UnsubscribeAll(c) => OnUnsubscribeAll(o, c)
    case Notify(reports) => o.(cache := Refresh(o.cache, reports).0)
  }

  /** The cached values of some items. */
  function Cached(cache: map<Item, Value>, items: set<Item>): map<Item, Value> {
    map i | i in items && i in cache :: cache[i]
  }

  function MessageOf(cache: map<Item, Value>, items: set<Item>, c: Client): multiset<Message> {
    if Cached(cache, items) == map[] then multiset{} else multiset{Message(c, Cached(cache, items))}
  }

  /** The clients of the updated items, on the item side. */
  function Recipients(o: Observer, updated: set<Item>): set<Client> {
    set i, c | i in updated && c in Get(o.clientsOf, i) :: c
  }

  /** What is sent to some clients, to each at most once. */
  function SentTo(o: Observer, updated: set<Item>, clients: set<Client>): multiset<Message> {
    multiset(set c, m | c in clients && m in MessageOf(o.cache, Get(o.itemsOf, c) * updated, c) :: m)
  }

  /** What one `notify` sends. */
  function FanOut(o: Observer, reports: seq<Option<Report>>): multiset<Message> {
    var (cache, updated) := Refresh(o.cache, reports);
    SentTo(o.(cache := cache), updated, Recipients(o, updated))
  }

  // ---------------------------------------------------------------- the laws

  /** An item is in a client's set exactly when the client is in the item's set. */
  ghost predicate Transposed(o: Observer) {
    forall c, i :: i in Get(o.itemsOf, c) <==> c in Get(o.clientsOf, i)
  }

  /** Items have an entry exactly while they have a client, and the framework, once connected, knows exactly those. */
  ghost predicate InStep(o: Observer) {
    NoEmptyEntry(o.clientsOf) && o.announced == if o.connected then o.clientsOf.Keys else {}
  }

  /** Requests with an empty list or no client are dropped before they become messages. */
  predicate Enabled(e: Event) {
    (e.Subscribe? || e.UpdateSubscription? || e.Unsubscribe?) ==> e.items != {}
  }

  lemma StepKeepsInStep(o: Observer, e: Event)
    requires InStep(o) && Enabled(e)
    ensures InStep(Step(o, e))
  {
    match e
    case Subscribe(items, c, _) => AddKeepsKeys(o.clientsOf, items, c);
    case UpdateSubscription(items, c) =>
      var kept, added := Get(o.itemsOf, c) * items, items - Get(o.itemsOf, c);
      TrimKeepsKeys(o.clientsOf, kept, c);
      AddKeepsKeys(Trimmed(o.clientsOf, kept, {c}), added, c);
    case Unsubscribe(items, c) => TrimKeepsKeys(o.clientsOf, GoneVals(o.itemsOf, {c}, items), c);
    case UnsubscribeAll(c) => TrimKeepsKeys(o.clientsOf, Get(o.itemsOf, c), c);
    case _ =>
  }

  lemma AddKeepsKeys(m: map<Item, set<Client>>, items: set<Item>, c: Client)
    requires NoEmptyEntry(m)
    ensures NoEmptyEntry(Added(m, items, {c}))
    ensures Added(m, items, {c}).Keys == m.Keys + items == m.Keys + NewKeys(m, items, {c})
  {
    forall i | i in Added(m, items, {c})
      ensures Added(m, items, {c})[i] != {}
    {
      assert i in items ==> c in Added(m, items, {c})[i];
    }
  }

  lemma TrimKeepsKeys(m: map<Item, set<Client>>, items: set<Item>, c: Client)
    requires NoEmptyEntry(m)
    ensures NoEmptyEntry(Trimmed(m, items, {c}))
    ensures Trimmed(m, items, {c}).Keys == m.Keys - GoneKeys(m, items, {c}) && GoneKeys(m, items, {c}) <= items
  {
    forall i | i in Trimmed(m, items, {c})
      ensures Trimmed(m, items, {c})[i] != {}
    {
      if i in items {
        var d :| d in m[i] && d !in {c};
        assert d in Trimmed(m, items, {c})[i];
      }
    }
  }

  // ---------------------------------------------------------------- when the two sides stay transposes

  lemma GetTrimmed<K, V>(m: map<K, set<V>>, keys: set<K>, vals: set<V>, k: K)
    ensures Get(Trimmed(m, keys, vals), k) == if k in keys then Get(m, k) - vals else Get(m, k)
  {}

  lemma GetAdded<K, V>(m: map<K, set<V>>, keys: set<K>, vals: set<V>, k: K)
    ensures Get(Added(m, keys, vals), k) == if k in keys then Get(m, k) + vals else Get(m, k)
  {}

  /** One link between a client and an item, on both sides, after an event that is not an update. */
  lemma LinkAfter(o: Observer, e: Event, c: Client, i: Item)
    requires !e.UpdateSubscription? && (i in Get(o.itemsOf, c) <==> c in Get(o.clientsOf, i))
    ensures i in Get(Step(o, e).itemsOf, c) <==> c in Get(Step(o, e).clientsOf, i)
  {
    match e
    case Subscribe(items, d, _) =>
      GetAdded(o.clientsOf, items, {d}, i);
      GetAdded(o.itemsOf, {d}, items, c);
    case Unsubscribe(items, d) =>
      var unused := GoneVals(o.itemsOf, {d}, items);
      assert unused == items * Get(o.itemsOf, d);
      GetTrimmed(o.itemsOf, {d}, items, c);
      GetTrimmed(o.clientsOf, unused, {d}, i);
    case UnsubscribeAll(d) =>
      GetTrimmed(o.clientsOf, Get(o.itemsOf, d), {d}, i);
    case _ =>
  }

  /** After an update the client side holds the new set, and the item side exactly the items in which the old set
      and the new one differ. */
  lemma LinkAfterUpdate(o: Observer, items: set<Item>, d: Client, c: Client, i: Item)
    requires items != {} && (i in Get(o.itemsOf, c) <==> c in Get(o.clientsOf, i))
    ensures i in Get(OnUpdate(o, items, d).itemsOf, c) <==> if c == d then i in items else i in Get(o.itemsOf, c)
    ensures c in Get(OnUpdate(o, items, d).clientsOf, i) <==>
            if c == d then (i in items) != (i in Get(o.itemsOf, d)) else i in Get(o.itemsOf, c)
  {
    var kept, added := Get(o.itemsOf, d) * items, items - Get(o.itemsOf, d);
    GetTrimmed(o.clientsOf, kept, {d}, i);
    GetAdded(Trimmed(o.clientsOf, kept, {d}), added, {d}, i);
  }

  /** The one event after which the sides may disagree, and exactly when they do. */
  predicate Harmless(o: Observer, e: Event) {
    e.UpdateSubscription? ==> Get(o.itemsOf, e.client) == {}
  }

  lemma TransposedAfterExactlyIfHarmless(o: Observer, e: Event)
    requires Transposed(o) && Enabled(e)
    ensures Transposed(Step(o, e)) <==> Harmless(o, e)
  {
    if e.UpdateSubscription? {
      forall c, i
        ensures (i in Get(Step(o, e).itemsOf, c) <==> c in Get(Step(o, e).clientsOf, i)) <==>
                (c == e.client ==> i !in Get(o.itemsOf, c))
      {
        LinkAfterUpdate(o, e.items, e.client, c, i);
      }
      if !Harmless(o, e) {
        var i :| i in Get(o.itemsOf, e.client);
        assert !(i in Get(Step(o, e).itemsOf, e.client) <==> e.client in Get(Step(o, e).clientsOf, i));
      }
    } else {
      forall c, i
        ensures i in Get(Step(o, e).itemsOf, c) <==> c in Get(Step(o, e).clientsOf, i)
      {
        LinkAfter(o, e, c, i);
      }
    }
  }

  // ---------------------------------------------------------------- runs

  function Run(es: seq<Event>): Observer {
    if es == [] then Initial else Step(Run(es[..|es| - 1]), es[|es| - 1])
  }

  ghost predicate IsRun(es: seq<Event>) {
    forall e :: e in es ==> Enabled(e)
  }

  /** In every run the framework knows exactly the items that have a client, updates included. */
  lemma {:induction false} RunsStayInStep(es: seq<Event>)
    requires IsRun(es)
    ensures InStep(Run(es))
  {
    if es != [] {
      RunsStayInStep(es[..|es| - 1]);
      StepKeepsInStep(Run(es[..|es| - 1]), es[|es| - 1]);
    }
  }

  /** It is connected exactly once it has been given a subscription object. */
  lemma {:induction false} ConnectedExactly(es: seq<Event>)
    ensures Run(es).connected <==> SetSubscriptionObj in es
  {
    if es != [] {
      ConnectedExactly(es[..|es| - 1]);
      assert es == es[..|es| - 1] + [es[|es| - 1]];
    }
  }

  /** In every run whose updates come from clients without subscriptions, the two sides are transposes. */
  lemma {:induction false} RunsStayTransposed(es: seq<Event>)
    requires IsRun(es) && forall k :: 0 <= k < |es| ==> Harmless(Run(es[..k]), es[k])
    ensures Transposed(Run(es))
  {
    if es != [] {
      var init := es[..|es| - 1];
      forall k | 0 <= k < |init|
        ensures Harmless(Run(init[..k]), init[k])
      {
        assert init[..k] == es[..k] && Harmless(Run(es[..k]), es[k]);
      }
      RunsStayTransposed(init);
      TransposedAfterExactlyIfHarmless(Run(init), es[|es| - 1]);
    }
  }

  ghost predicate AlwaysTransposed(es: seq<Event>) {
    Transposed(Run(es)) && (es != [] ==> AlwaysTransposed(es[..|es| - 1]))
  }

  predicate AlwaysHarmless(es: seq<Event>) {
    es != [] ==> AlwaysHarmless(es[..|es| - 1]) && Harmless(Run(es[..|es| - 1]), es[|es| - 1])
  }

  /** In every run the two sides are transposes all along exactly if every update in it comes from a client without
      subscriptions. */
  lemma {:induction false} RunsStayTransposedExactly(es: seq<Event>)
    requires IsRun(es)
    ensures AlwaysTransposed(es) <==> AlwaysHarmless(es)
  {
    if es != [] {
      var init := es[..|es| - 1];
      RunsStayTransposedExactly(init);
      if Transposed(Run(init)) {
        TransposedAfterExactlyIfHarmless(Run(init), es[|es| - 1]);
      }
    }
  }

  // ---------------------------------------------------------------- fan-out

  /** What a client has asked for and not given back. */
  function Asked(es: seq<Event>, c: Client): set<Item> {
    if es == [] then {}
    else
      var before := Asked(es[..|es| - 1], c);
      match es[|es| - 1]
      case Subscribe(items, d, _) => if d == c then before + items else before
      case UpdateSubscription(items, d) => if d == c then items else before
      case Unsubscribe(items, d) => if d == c then before - items else before
      case UnsubscribeAll(d) => if d == c then {} else before
      case _ => before
  }

  /** In every run the client side holds exactly what each client has asked for. */
  lemma {:induction false} ClientsHoldWhatTheyAsked(es: seq<Event>, c: Client)
    ensures Get(Run(es).itemsOf, c) == Asked(es, c)
  {
    if es != [] {
      var o, e := Run(es[..|es| - 1]), es[|es| - 1];
      ClientsHoldWhatTheyAsked(es[..|es| - 1], c);
      match e
      case Subscribe(items, d, _) => GetAdded(o.itemsOf, {d}, items, c);
      case Unsubscribe(items, d) => GetTrimmed(o.itemsOf, {d}, items, c);
      case _ =>
    }
  }

  /** The items that list a client.  An update takes it off those it asks for again, and leaves it on those it drops;
      being unsubscribed takes it off those it still asks for. */
  function ListedUnder(es: seq<Event>, c: Client): set<Item> {
    if es == [] then {}
    else
      var asked, before := Asked(es[..|es| - 1], c), ListedUnder(es[..|es| - 1], c);
      match es[|es| - 1]
      case Subscribe(items, d, _) => if d == c then before + items else before
      case UpdateSubscription(items, d) => if d == c then before - asked * items + (items - asked) else before
      case Unsubscribe(items, d) => if d == c then before - asked * items else before
      case UnsubscribeAll(d) => if d == c then before - asked else before
      case _ => before
  }

  lemma {:induction false} ItemsListExactly(es: seq<Event>, c: Client, i: Item)
    ensures c in Get(Run(es).clientsOf, i) <==> i in ListedUnder(es, c)
  {
    if es != [] {
      var init, e := es[..|es| - 1], es[|es| - 1];
      ItemsListExactly(init, c, i);
      ClientsHoldWhatTheyAsked(init, c);
      ItemListsAfter(Run(init), e, c, i);
    }
  }

  lemma ItemListsAfter(o: Observer, e: Event, c: Client, i: Item)
    ensures var asked, before, after := Get(o.itemsOf, c), c in Get(o.clientsOf, i), c in Get(Step(o, e).clientsOf, i);
            match e
            case Subscribe(items, d, _) => after <==> before || (d == c && i in items)
            case UpdateSubscription(items, d) =>
              after <==> if d == c && i in items then i !in asked else before
            case Unsubscribe(items, d) => after <==> before && !(d == c && i in asked * items)
            case UnsubscribeAll(d) => after <==> before && !(d == c && i in asked)
            case _ => after <==> before
  {
    match e
    case Subscribe(items, d, _) => GetAdded(o.clientsOf, items, {d}, i);
    case UpdateSubscription(items, d) =>
      var kept, added := Get(o.itemsOf, d) * items, items - Get(o.itemsOf, d);
      GetTrimmed(o.clientsOf, kept, {d}, i);
      GetAdded(Trimmed(o.clientsOf, kept, {d}), added, {d}, i);
    case Unsubscribe(items, d) =>
      var unused := GoneVals(o.itemsOf, {d}, items);
      assert unused == items * Get(o.itemsOf, d);
      GetTrimmed(o.clientsOf, unused, {d}, i);
    case UnsubscribeAll(d) => GetTrimmed(o.clientsOf, Get(o.itemsOf, d), {d}, i);
    case _ =>
  }

  /** In every run, updates included, the framework has been told of exactly the items that list some client, as soon as
      there is a subscription object, and of nothing before. */
  lemma AnnouncedExactly(es: seq<Event>, i: Item)
    requires IsRun(es)
    ensures i in Run(es).announced <==> SetSubscriptionObj in es && exists c :: i in ListedUnder(es, c)
  {
    RunsStayInStep(es);
    ConnectedExactly(es);
    forall c
      ensures i in ListedUnder(es, c) <==> c in Get(Run(es).clientsOf, i)
    {
      ItemsListExactly(es, c, i);
    }
    if i in Run(es).announced {
      var c :| c in Run(es).clientsOf[i];
      assert i in ListedUnder(es, c);
    }
  }

  /** So in every run whose updates come from clients without subscriptions the framework, as soon as there is a
      subscription object, has been told of exactly the items some client has asked for. */
  lemma AnnouncedIsWhatIsAsked(es: seq<Event>, i: Item)
    requires IsRun(es) && forall k :: 0 <= k < |es| ==> Harmless(Run(es[..k]), es[k])
    ensures i in Run(es).announced <==> SetSubscriptionObj in es && exists c :: i in Asked(es, c)
  {
    RunsStayInStep(es);
    ConnectedExactly(es);
    RunsStayTransposed(es);
    var o := Run(es);
    forall c
      ensures i in Asked(es, c) <==> c in Get(o.clientsOf, i)
    {
      ClientsHoldWhatTheyAsked(es, c);
      assert i in Get(o.itemsOf, c) <==> c in Get(o.clientsOf, i);
    }
    if i in o.announced {
      var c :| c in o.clientsOf[i];
      assert i in Asked(es, c);
    }
  }

  lemma SentToOnce(o: Observer, updated: set<Item>, clients: set<Client>, m: Message)
    ensures SentTo(o, updated, clients)[m] ==
            if m.to in clients && m in MessageOf(o.cache, Get(o.itemsOf, m.to) * updated, m.to) then 1 else 0
  {}

  /** The answer to a request: one message with exactly the cached ones of some items, and none if there are none. */
  lemma MessageIsExact(cache: map<Item, Value>, items: set<Item>, c: Client, m: Message)
    ensures MessageOf(cache, items, c)[m] ==
            if m.to == c && m.values != map[] && (forall i :: i in m.values <==> i in items && i in cache) &&
               forall i :: i in m.values ==> m.values[i] == cache[i]
            then 1 else 0
  {
    var cached := Cached(cache, items);
    if (forall i :: i in m.values <==> i in items && i in cache) &&
       forall i :: i in m.values ==> m.values[i] == cache[i] {
      assert m.values == cached;
    }
  }

  /** With transposed sides, one `notify` sends each client that subscribes to updated items one message, with exactly
      those and their new values, and sends nothing else. */
  lemma FanOutIsExact(o: Observer, reports: seq<Option<Report>>, m: Message)
    requires Transposed(o)
    ensures var (cache, updated) := Refresh(o.cache, reports);
            var due := Get(o.itemsOf, m.to) * updated;
            FanOut(o, reports)[m] ==
            if due != {} && m.values.Keys == due && forall i :: i in due ==> i in cache && m.values[i] == cache[i]
            then 1 else 0
  {
    var (cache, updated) := Refresh(o.cache, reports);
    var due := Get(o.itemsOf, m.to) * updated;
    SentToOnce(o.(cache := cache), updated, Recipients(o, updated), m);
    MessageIsExact(cache, due, m.to, m);
    if i :| i in due {
      assert m.to in Get(o.clientsOf, i);
      assert m.to in Recipients(o, updated);
    }
    assert m.values == map[] <==> m.values.Keys == {};
  }

  /** Whether a recorded report of an item says something else than the cache did before. */
  ghost predicate Tells(cache: map<Item, Value>, reports: seq<Option<Report>>, i: Item) {
    exists k :: 0 <= k < |reports| && Recorded(reports[k], i) && !(i in cache && cache[i] == reports[k].value.value)
  }

  predicate Recorded(report: Option<Report>, i: Item) {
    report.Some? && report.value.recorded && report.value.id == i
  }

  /** The items taken for updated are exactly those with such a report, even if the last one takes the
      value back. */
  lemma {:induction false} UpdatedExactly(cache: map<Item, Value>, reports: seq<Option<Report>>, i: Item)
    ensures i in Refresh(cache, reports).1 <==> Tells(cache, reports, i)
  {
    if reports != [] {
      var n := |reports| - 1;
      var init := reports[..n];
      UpdatedExactly(cache, init, i);
      RefreshLeavesOthers(cache, init, i);
      if Tells(cache, init, i) {
        var k :| 0 <= k < n && Recorded(init[k], i) && !(i in cache && cache[i] == init[k].value.value);
        assert reports[k] == init[k];
      } else {
        assert forall k :: 0 <= k < n ==> reports[k] == init[k];
      }
    }
  }

  /** So a client is told of an item, once, exactly if it subscribes to it and some recorded report of it is news. */
  lemma ToldExactly(o: Observer, reports: seq<Option<Report>>, c: Client, i: Item)
    requires Transposed(o)
    ensures (exists m :: m in FanOut(o, reports) && m.to == c && i in m.values) <==>
            i in Get(o.itemsOf, c) && Tells(o.cache, reports, i)
  {
    var (cache, updated) := Refresh(o.cache, reports);
    var due := Get(o.itemsOf, c) * updated;
    UpdatedExactly(o.cache, reports, i);
    FanOutIsExact(o, reports, Message(c, Cached(cache, due)));
    if m :| m in FanOut(o, reports) && m.to == c && i in m.values {
      FanOutIsExact(o, reports, m);
    }
    if i in due {
      assert Message(c, Cached(cache, due)) in FanOut(o, reports);
    }
  }

  /** The last recorded report of an item is what the cache holds. */
  lemma {:induction false} RefreshHoldsLast(cache: map<Item, Value>, reports: seq<Option<Report>>, k: nat)
    requires k < |reports| && reports[k].Some? && reports[k].value.recorded
    requires forall x :: k < x < |reports| && reports[x].Some? && reports[x].value.recorded ==>
               reports[x].value.id != reports[k].value.id
    ensures var (after, updated) := Refresh(cache, reports);
            var r := reports[k].value;
            r.id in after && after[r.id] == r.value &&
            (r.id !in updated ==> r.id in cache && cache[r.id] == r.value)
  {
    var n := |reports|;
    if k < n - 1 {
      assert reports[n - 1] == None || !reports[n - 1].value.recorded || reports[n - 1].value.id != reports[k].value.id;
      assert reports[..n - 1][k] == reports[k];
      RefreshHoldsLast(cache, reports[..n - 1], k);
    } else {
      RefreshLeavesOthers(cache, reports[..n - 1], reports[k].value.id);
    }
  }

  lemma {:induction false} RefreshLeavesOthers(cache: map<Item, Value>, reports: seq<Option<Report>>, i: Item)
    ensures var (after, updated) := Refresh(cache, reports);
            i !in updated ==> (i in after <==> i in cache) && (i in cache ==> after[i] == cache[i])
  {
    if reports != [] {
      RefreshLeavesOthers(cache, reports[..|reports| - 1], i);
    }
  }

  /** The value last recorded for an item, in some reports or else before them. */
  function LastReported(reports: seq<Option<Report>>, i: Item, before: Option<Value>): Option<Value> {
    if reports == [] then before
    else if Recorded(reports[|reports| - 1], i) then Some(reports[|reports| - 1].value.value)
    else LastReported(reports[..|reports| - 1], i, before)
  }

  function LastRecorded(es: seq<Event>, i: Item): Option<Value> {
    if es == [] then None
    else if es[|es| - 1].Notify? then LastReported(es[|es| - 1].reports, i, LastRecorded(es[..|es| - 1], i))
    else LastRecorded(es[..|es| - 1], i)
  }

  ghost predicate CacheIs(cache: map<Item, Value>, i: Item, v: Option<Value>) {
    if v.Some? then i in cache && cache[i] == v.value else i !in cache
  }

  lemma {:induction false} RefreshedIs(cache: map<Item, Value>, reports: seq<Option<Report>>, i: Item, v: Option<Value>)
    requires CacheIs(cache, i, v)
    ensures CacheIs(Refresh(cache, reports).0, i, LastReported(reports, i, v))
  {
    if reports != [] {
      RefreshedIs(cache, reports[..|reports| - 1], i, v);
    }
  }

  /** In every run the cache holds exactly the items ever recorded, each with the value last recorded for it. */
  lemma {:induction false} CacheHoldsLast(es: seq<Event>, i: Item)
    ensures CacheIs(Run(es).cache, i, LastRecorded(es, i))
  {
    if es != [] {
      CacheHoldsLast(es[..|es| - 1], i);
      if es[|es| - 1].Notify? {
        RefreshedIs(Run(es[..|es| - 1]).cache, es[|es| - 1].reports, i, LastRecorded(es[..|es| - 1], i));
      }
    }
  }

  /** A client that subscribes to an item and then updates its subscription to the same item is cut off from it:
      the framework is told to stop, and a new value goes to nobody. */
  lemma UpdateToSameItemsSilences(i: Item, c: Client, v: Value)
    ensures var es := [SetSubscriptionObj, Subscribe({i}, c, false), UpdateSubscription({i}, c)];
            var o := Run(es);
            IsRun(es) && i in Get(o.itemsOf, c) && i !in o.clientsOf && o.announced == {} &&
            FanOut(o, [Some(Report(i, v, true))]) == multiset{}
  {
    var es := [SetSubscriptionObj, Subscribe({i}, c, false), UpdateSubscription({i}, c)];
    assert es[..2] == [es[0], es[1]] && es[..2][..1] == [es[0]] && es[..2][..1][..0] == [];
    var o1 := Run([SetSubscriptionObj]);
    var o2 := Run(es[..2]);
    assert o1 == Step(Initial, SetSubscriptionObj) by { assert [SetSubscriptionObj][..0] == []; }
    assert o2 == OnSubscribe(o1, {i}, c, false);
    AddedToOne(o1.clientsOf, i, {c});
    AddedToOne(o1.itemsOf, c, {i});
    assert o2.clientsOf == map[i := {c}] && o2.itemsOf == map[c := {i}] && o2.announced == {i};
    var o := Run(es);
    assert Get(o2.itemsOf, c) * {i} == {i} && {i} - Get(o2.itemsOf, c) == {};
    assert Trimmed(o2.clientsOf, {i}, {c}) == map[];
    assert o.clientsOf == map[];
    assert GoneKeys(o2.clientsOf, {i}, {c}) == {i};
  }

  // ---------------------------------------------------------------- the code

  /** `containerTransfer` from a list to an unordered set. */
  function ToSet(l: seq<Item>): set<Item> {
    set i | i in l
  }

  class SystemStatusOsObserver {
    const clientToDataItems: LocUnorderedSetMap<Client, Item>
    const dataItemToClients: LocUnorderedSetMap<Item, Client>
    var connected: bool                // whether there is a subscription object
    var dataItemCache: map<Item, Value>
    ghost var announced: set<Item>

    constructor ()
      ensures Valid() && View() == Initial
      ensures fresh(clientToDataItems) && fresh(dataItemToClients)
    {
      clientToDataItems := new LocUnorderedSetMap<Client, Item>();
      dataItemToClients := new LocUnorderedSetMap<Item, Client>();
      connected, dataItemCache, announced := false, map[], {};
    }

    predicate Valid() {
      clientToDataItems != dataItemToClients
    }

    ghost function View(): Observer
      reads this, clientToDataItems, dataItemToClients
    {
      Observer(clientToDataItems.m, dataItemToClients.m, connected, announced, dataItemCache)
    }

    /** The subscription object's `subscribe` and `requestData`. */
    method Announce(items: set<Item>)
      modifies `announced
      ensures announced == old(announced) + items
    {
      announced := announced + items;
    }

    /** The subscription object's `unsubscribe`. */
    method Withdraw(items: set<Item>)
      modifies `announced
      ensures announced == old(announced) - items
    {
      announced := announced - items;
    }

    method SetSubscriptionObj()
      modifies this
      ensures View() == Step(old(View()), Event.SetSubscriptionObj)
    {
      connected := true;
      announced := {};    // a new subscription object has been told nothing
      if dataItemToClients.m != map[] {
        Announce(dataItemToClients.m.Keys);
        Announce(dataItemToClients.m.Keys);
      }
    }

    /** `sendCachedDataItems`: the message sent, if any. */
    method SendCachedDataItems(s: set<Item>, to: Client) returns (sent: multiset<Message>)
      ensures sent == MessageOf(dataItemCache, s, to)
    {
      var dataItems: map<Item, Value> := map[];
      var todo := s;
      while todo != {}
        invariant todo <= s
        invariant dataItems == Cached(dataItemCache, s - todo)
        decreases todo
      {
        var each :| each in todo;
        if each in dataItemCache {
          dataItems := dataItems[each := dataItemCache[each]];
        }
        todo := todo - {each};
      }
      assert s - todo == s;
      sent := if dataItems == map[] then multiset{} else multiset{Message(to, dataItems)};
    }

    /** `subscribe` with `toRequestData` false, `requestData` with it true. */
    method SubscribeOrRequest(l: seq<Item>, client: Option<Client>, toRequestData: bool)
      returns (sent: multiset<Message>)
      requires Valid()
      modifies this, clientToDataItems, dataItemToClients
      ensures l == [] || client == None ==> View() == old(View()) && sent == multiset{}
      ensures l != [] && client.Some? ==>
                View() == Step(old(View()), Subscribe(ToSet(l), client.value, toRequestData)) &&
                sent == MessageOf(dataItemCache, ToSet(l), client.value)
    {
      sent := multiset{};
      if |l| != 0 && client.Some? {
        var items, c := ToSet(l), client.value;
        assert l[0] in items;
        var dataItemsToSubscribe := dataItemToClients.Add(items, {c});
        var _ := clientToDataItems.AddOne(c, items);
        sent := SendCachedDataItems(items, c);
        if connected {
          if toRequestData {
            Announce(items);
          } else if dataItemsToSubscribe != {} {
            Announce(dataItemsToSubscribe);
          }
        }
        assert announced == Tell(old(View()), if toRequestData then items else dataItemsToSubscribe, {});
      }
    }

    method UpdateSubscription(l: seq<Item>, client: Option<Client>) returns (sent: multiset<Message>)
      requires Valid()
      modifies this, clientToDataItems, dataItemToClients
      ensures l == [] || client == None ==> View() == old(View()) && sent == multiset{}
      ensures l != [] && client.Some? ==>
                View() == Step(old(View()), Event.UpdateSubscription(ToSet(l), client.value)) &&
                sent == MessageOf(dataItemCache, ToSet(l) - Get(old(clientToDataItems.m), client.value), client.value)
    {
      sent := multiset{};
      if |l| != 0 && client.Some? {
        var items, c := ToSet(l), client.value;
        assert l[0] in items;
        ghost var before := View();
        var gone;
        gone, items := clientToDataItems.Update(c, items);
        var dataItemsToUnsubscribe, _ := dataItemToClients.TrimOrRemove(gone, {c});
        var dataItemsToSubscribe := dataItemToClients.Add(items, {c});
        sent := SendCachedDataItems(items, c);
        if connected {
          if dataItemsToSubscribe != {} {
            Announce(dataItemsToSubscribe);
          }
          if dataItemsToUnsubscribe != {} {
            Withdraw(dataItemsToUnsubscribe);
          }
        }
        assert announced == Tell(before, dataItemsToSubscribe, dataItemsToUnsubscribe);
      }
    }

    method Unsubscribe(l: seq<Item>, client: Option<Client>)
      requires Valid()
      modifies this, clientToDataItems, dataItemToClients
      ensures l == [] || client == None ==> View() == old(View())
      ensures l != [] && client.Some? ==>
                View() == Step(old(View()), Event.Unsubscribe(ToSet(l), client.value))
    {
      if |l| != 0 && client.Some? {
        var c := client.value;
        var _, dataItemsUnusedByClient := clientToDataItems.TrimOrRemove({c}, ToSet(l));
        var dataItemsToUnsubscribe, _ := dataItemToClients.TrimOrRemove(dataItemsUnusedByClient, {c});
        if connected && dataItemsToUnsubscribe != {} {
          Withdraw(dataItemsToUnsubscribe);
        }
        assert announced == Tell(old(View()), {}, dataItemsToUnsubscribe);
      }
    }

    method UnsubscribeAll(client: Option<Client>)
      requires Valid()
      modifies this, clientToDataItems, dataItemToClients
      ensures client == None ==> View() == old(View())
      ensures client.Some? ==> View() == Step(old(View()), Event.UnsubscribeAll(client.value))
    {
      if client.Some? {
        var c := client.value;
        var diByClient := Get(clientToDataItems.m, c);
        if diByClient != {} {
          var _ := clientToDataItems.Remove(c);
          var dataItemsToUnsubscribe, _ := dataItemToClients.TrimOrRemove(diByClient, {c});
          if dataItemsToUnsubscribe != {} && connected {
            Withdraw(dataItemsToUnsubscribe);
          }
          assert announced == Tell(old(View()), {}, dataItemsToUnsubscribe);
        }
      }
    }

    /** `updateCache`: whether the cached value changed.  Copying into a cached item is taken to report a change
        exactly when the values differ. */
    method UpdateCache(d: Option<Report>) returns (dataItemUpdated: bool)
      modifies `dataItemCache
      ensures dataItemUpdated ==> d.Some?
      ensures (dataItemCache, if dataItemUpdated then {d.value.id} else {}) == Refresh(old(dataItemCache), [d])
    {
      RefreshOne(dataItemCache, d);
      dataItemUpdated := false;
      if d.Some? && d.value.recorded {
        if d.value.id !in dataItemCache || dataItemCache[d.value.id] != d.value.value {
          dataItemUpdated := true;
          dataItemCache := dataItemCache[d.value.id := d.value.value];
        }
      }
    }

    /** The queued half of `notify`. */
    method HandleNotify(diVec: seq<Option<Report>>) returns (sent: multiset<Message>)
      modifies `dataItemCache
      ensures View() == Step(old(View()), Event.Notify(diVec))
      ensures sent == FanOut(old(View()), diVec)
    {
      var dataItemIdsToBeSent := UpdateAll(diVec);
      assert View() == old(View()).(cache := dataItemCache);
      var clientSet := ClientsOf(dataItemIdsToBeSent);
      sent := SendUpdates(dataItemIdsToBeSent, clientSet);
    }

    /** The last loop of `notify`. */
    method SendUpdates(dataItemIdsToBeSent: set<Item>, clientSet: set<Client>) returns (sent: multiset<Message>)
      ensures sent == SentTo(View(), dataItemIdsToBeSent, clientSet)
    {
      sent := multiset{};
      var todo := clientSet;
      while todo != {}
        invariant todo <= clientSet
        invariant sent == SentTo(View(), dataItemIdsToBeSent, clientSet - todo)
        decreases todo
      {
        var client :| client in todo;
        var own := Trim(Get(clientToDataItems.m, client), dataItemIdsToBeSent);
        var message := SendCachedDataItems(own, client);
        SentToOneMore(View(), dataItemIdsToBeSent, clientSet - todo, client);
        assert clientSet - (todo - {client}) == clientSet - todo + {client};
        sent := sent + message;
        todo := todo - {client};
      }
      assert clientSet - todo == clientSet;
    }

    /** The first loop of `notify`: the items whose cached value changed. */
    method UpdateAll(diVec: seq<Option<Report>>) returns (dataItemIdsToBeSent: set<Item>)
      modifies `dataItemCache
      ensures (dataItemCache, dataItemIdsToBeSent) == Refresh(old(dataItemCache), diVec)
    {
      dataItemIdsToBeSent := {};
      var k := 0;
      while k < |diVec|
        invariant 0 <= k <= |diVec|
        invariant (dataItemCache, dataItemIdsToBeSent) == Refresh(old(dataItemCache), diVec[..k])
      {
        assert diVec[..k + 1][..k] == diVec[..k];
        RefreshOne(dataItemCache, diVec[k]);
        var updated := UpdateCache(diVec[k]);
        if updated {
          dataItemIdsToBeSent := dataItemIdsToBeSent + {diVec[k].value.id};
        }
        k := k + 1;
      }
      assert diVec[..k] == diVec;
    }

    method ClientsOf(items: set<Item>) returns (clientSet: set<Client>)
      ensures clientSet == Recipients(View(), items)
    {
      clientSet := {};
      var todo := items;
      while todo != {}
        invariant todo <= items
        invariant clientSet == Recipients(View(), items - todo)
        decreases todo
      {
        var each :| each in todo;
        assert items - (todo - {each}) == items - todo + {each};
        clientSet := clientSet + Get(dataItemToClients.m, each);
        todo := todo - {each};
      }
      assert items - todo == items;
    }

    /** The erasing loop over one client's items. */
    method Trim(items: set<Item>, wanted: set<Item>) returns (kept: set<Item>)
      ensures kept == items * wanted
    {
      kept := items;
      var todo := items;
      while todo != {}
        invariant todo <= kept
        invariant kept == items * wanted + todo && todo <= items
        decreases todo
      {
        var item :| item in todo;
        if item !in wanted {
          kept := kept - {item};
        }
        todo := todo - {item};
      }
    }

    /** `notify`: the vector is created with as many null entries as there are items, which are then appended. */
    method Notify(dlist: seq<Report>) returns (sent: multiset<Message>)
      modifies `dataItemCache
      ensures sent == FanOut(old(View()), seq(|dlist|, k requires 0 <= k < |dlist| => Some(dlist[k])))
      ensures View() == Step(old(View()), Event.Notify(seq(|dlist|, k requires 0 <= k < |dlist| => Some(dlist[k]))))
    {
      sent := multiset{};
      ghost var items := seq(|dlist|, k requires 0 <= k < |dlist| => Some(dlist[k]));
      if |dlist| != 0 {
        var nulls := seq(|dlist|, k => None);
        var dataItemVec: seq<Option<Report>> := nulls;
        var k := 0;
        while k < |dlist|
          invariant 0 <= k <= |dlist|
          invariant dataItemVec == nulls + items[..k]
        {
          dataItemVec := dataItemVec + [Some(dlist[k])];
          k := k + 1;
        }
        assert items[..k] == items;
        NullsChangeNothing(dataItemCache, nulls, items);
        sent := HandleNotify(dataItemVec);
      }
    }
  }

  lemma SentToOneMore(o: Observer, updated: set<Item>, clients: set<Client>, c: Client)
    requires c !in clients
    ensures SentTo(o, updated, clients + {c}) ==
            SentTo(o, updated, clients) + MessageOf(o.cache, Get(o.itemsOf, c) * updated, c)
  {
    var all, one := SentTo(o, updated, clients + {c}), MessageOf(o.cache, Get(o.itemsOf, c) * updated, c);
    forall m: Message
      ensures all[m] == (SentTo(o, updated, clients) + one)[m]
    {
      SentToOnce(o, updated, clients, m);
      SentToOnce(o, updated, clients + {c}, m);
    }
  }

  lemma RefreshOne(cache: map<Item, Value>, d: Option<Report>)
    ensures Refresh(cache, [d]) ==
            if d == None || !d.value.recorded || (d.value.id in cache && cache[d.value.id] == d.value.value)
            then (cache, {}) else (cache[d.value.id := d.value.value], {d.value.id})
  {
    assert [d][..0] == [];
    assert Refresh(cache, []) == (cache, {});
    assert d.Some? ==> {} + {d.value.id} == {d.value.id};
  }

  lemma {:induction false} NullsChangeNothing(cache: map<Item, Value>, nulls: seq<Option<Report>>,
                                              items: seq<Option<Report>>)
    requires forall k :: 0 <= k < |nulls| ==> nulls[k] == None
    ensures Refresh(cache, nulls + items) == Refresh(cache, items)
  {
    var whole := nulls + items;
    if items != [] {
      assert whole[..|whole| - 1] == nulls + items[..|items| - 1];
      NullsChangeNothing(cache, nulls, items[..|items| - 1]);
    } else if nulls != [] {
      assert whole[..|whole| - 1] == nulls[..|nulls| - 1] + [];
      NullsChangeNothing(cache, nulls[..|nulls| - 1], []);
    }
  }
}
