/** Refreshing expired file references: one request for each origin, every handler told once. */
module FileReferences {

  /** A handler, and what it asks for in turn when it is run. */
  datatype Handler = Handler(id: nat, asks: seq<Ask>)

  /**
   * A call of refreshFileReference: whether there is still something to ask the server for, and
   * whether this kind of origin has something to write to storage.
   */
  datatype Ask = Ask(origin: nat, handler: Handler, available: bool, additional: bool)

  /** What a list holds: handlers that were passed, and the extra one that writes to storage. */
  datatype Item = Passed(handler: Handler) | Extra(origin: nat)

  type Handlers = map<nat, seq<Item>>

  // The handlers that wait.

  ghost function Waiting(p: Handlers): multiset<Item> {
    if p == map[] then multiset{}
    else
      var o :| o in p;
      multiset(p[o]) + Waiting(p - {o})
  }

  lemma WithoutBoth(p: Handlers, j: nat, o: nat)
    ensures p - {j} - {o} == p - {o} - {j}
  {
  }

  lemma {:induction false} WaitingSplit(p: Handlers, o: nat)
    requires o in p
    ensures Waiting(p) == multiset(p[o]) + Waiting(p - {o})
    decreases |p|
  {
    var j :| j in p && Waiting(p) == multiset(p[j]) + Waiting(p - {j});
    if j != o {
      WithoutBoth(p, j, o);
      WaitingSplit(p - {j}, o);
      WaitingSplit(p - {o}, j);
    }
  }

  function ListOf(p: Handlers, o: nat): seq<Item> {
    if o in p then p[o] else []
  }

  lemma SameRest(p: Handlers, o: nat, list: seq<Item>)
    ensures p[o := list] - {o} == p - {o} && (o !in p ==> p - {o} == p)
  {
  }

  lemma WaitingPut(p: Handlers, o: nat, list: seq<Item>, more: seq<Item>)
    requires list == ListOf(p, o) + more
    ensures Waiting(p[o := list]) == Waiting(p) + multiset(more)
  {
    SameRest(p, o, list);
    WaitingSplit(p[o := list], o);
    if o in p {
      WaitingSplit(p, o);
    }
    assert multiset(list) == multiset(ListOf(p, o)) + multiset(more);
  }

  /** Every handler ever passed has run, is about to, or waits; each as often as it was passed. */
  ghost predicate Balanced(asked: multiset<Item>, ran: seq<Item>, running: seq<Item>, p: Handlers) {
    asked == multiset(ran) + multiset(running) + Waiting(p)
  }

  lemma BalancedPut(asked: multiset<Item>, ran: seq<Item>, running: seq<Item>, p: Handlers, o: nat,
                    more: seq<Item>, asked': multiset<Item>, p': Handlers)
    requires Balanced(asked, ran, running, p) && asked' == asked + multiset(more)
    requires p' == p[o := ListOf(p, o) + more]
    ensures Balanced(asked', ran, running, p')
  {
    WaitingPut(p, o, ListOf(p, o) + more, more);
  }

  lemma BalancedTaken(asked: multiset<Item>, ran: seq<Item>, p: Handlers, o: nat)
    requires Balanced(asked, ran, [], p) && o in p
    ensures Balanced(asked, ran, p[o], p - {o})
  {
    WaitingSplit(p, o);
  }

  lemma BalancedNext(asked: multiset<Item>, ran: seq<Item>, running: seq<Item>, p: Handlers)
    requires Balanced(asked, ran, running, p) && |running| > 0
    ensures Balanced(asked, ran + [running[0]], running[1..], p)
  {
    assert running == [running[0]] + running[1..];
  }

  lemma BalancedAtOnce(asked: multiset<Item>, ran: seq<Item>, running: seq<Item>, p: Handlers, h: Item,
                       asked': multiset<Item>)
    requires Balanced(asked, ran, running, p) && asked' == asked + multiset{h}
    ensures Balanced(asked', ran + [h], running, p)
  {
  }

  /** Of all items the handlers, as often as they were passed. */
  ghost predicate Linked(asked: multiset<Item>, passed: multiset<Handler>) {
    forall h :: asked[Passed(h)] == passed[h]
  }

  lemma LinkedMore(asked: multiset<Item>, passed: multiset<Handler>, h: Handler, more: seq<Item>,
                   asked': multiset<Item>, passed': multiset<Handler>)
    requires Linked(asked, passed)
    requires more == [Passed(h)] || (|more| == 2 && more[0] == Passed(h) && more[1].Extra?)
    requires asked' == asked + multiset(more) && passed' == passed + multiset{h}
    ensures Linked(asked', passed')
  {
    assert more == [more[0]] || more == [more[0], more[1]];
  }

  // What handlers ask for when they are run.

  function Of(asks: seq<Ask>): multiset<Handler> {
    if asks == [] then multiset{} else Of(asks[..|asks| - 1]) + multiset{asks[|asks| - 1].handler}
  }

  function PassedBy(ran: seq<Item>): multiset<Handler> {
    if ran == [] then multiset{}
    else
      var last := ran[|ran| - 1];
      PassedBy(ran[..|ran| - 1]) + if last.Passed? then Of(last.handler.asks) else multiset{}
  }

  /** From one moment to another, the handlers passed are `more` and what the handlers run meanwhile passed. */
  ghost predicate Meanwhile(passed: multiset<Handler>, ran: seq<Item>, passed': multiset<Handler>, ran': seq<Item>,
                            more: multiset<Handler>)
  {
    forall h :: passed'[h] + PassedBy(ran)[h] == passed[h] + PassedBy(ran')[h] + more[h]
  }

  lemma PassedByMore(ran: seq<Item>, item: Item)
    ensures PassedBy(ran + [item]) == PassedBy(ran) + if item.Passed? then Of(item.handler.asks) else multiset{}
  {
    assert (ran + [item])[..|ran|] == ran;
  }

  lemma OfMore(asks: seq<Ask>, i: nat)
    requires i < |asks|
    ensures Of(asks[..i + 1]) == Of(asks[..i]) + multiset{asks[i].handler}
  {
    assert asks[..i + 1][..i] == asks[..i];
  }

  lemma MeanwhileBoth(p: multiset<Handler>, r: seq<Item>, p1: multiset<Handler>, r1: seq<Item>,
                      p2: multiset<Handler>, r2: seq<Item>, a: multiset<Handler>, b: multiset<Handler>)
    requires Meanwhile(p, r, p1, r1, a) && Meanwhile(p1, r1, p2, r2, b)
    ensures Meanwhile(p, r, p2, r2, a + b)
  {
  }

  lemma NoneAndNone()
    ensures var none: multiset<Handler> := multiset{}; none + none == none
  {
  }

  /** A handler told at once was passed, and what it passes in turn was passed by one that has run. */
  lemma MeanwhileTold(p: multiset<Handler>, r: seq<Item>, h: Handler, p1: multiset<Handler>,
                      p2: multiset<Handler>, r2: seq<Item>)
    requires p1 == p + multiset{h} && Meanwhile(p1, r + [Passed(h)], p2, r2, Of(h.asks))
    ensures Meanwhile(p, r, p2, r2, multiset{h})
  {
    PassedByMore(r, Passed(h));
  }

  lemma MeanwhileRun(p: multiset<Handler>, r: seq<Item>, item: Item, p2: multiset<Handler>, r2: seq<Item>)
    requires Meanwhile(p, r + [item], p2, r2, if item.Passed? then Of(item.handler.asks) else multiset{})
    ensures Meanwhile(p, r, p2, r2, multiset{})
  {
    PassedByMore(r, item);
  }

  // Lists and requests.

  /**
   * There is a list for an origin exactly while one request for it is in flight; the extra handler is second in
   * it, if there.
   */
  ghost predicate Paired(p: Handlers, inFlight: map<nat, nat>, lastId: nat) {
    && (forall r :: r in inFlight ==> r <= lastId && inFlight[r] in p)
    && (forall r, s :: r in inFlight && s in inFlight && inFlight[r] == inFlight[s] ==> r == s)
    && (forall o :: o in p ==> o in inFlight.Values && |p[o]| > 0)
    && (forall o, i :: o in p && 0 <= i < |p[o]| && p[o][i].Extra? ==> i == 1)
  }

  lemma PairedStart(p: Handlers, inFlight: map<nat, nat>, lastId: nat, o: nat, list: seq<Item>,
                    p': Handlers, inFlight': map<nat, nat>)
    requires Paired(p, inFlight, lastId) && o !in p
    requires 1 <= |list| <= 2 && list[0].Passed?
    requires p' == p[o := list] && inFlight' == inFlight[lastId + 1 := o]
    ensures Paired(p', inFlight', lastId + 1)
  {
    forall k | k in p' ensures k in inFlight'.Values {
      if k == o {
        assert inFlight'[lastId + 1] == k;
      } else {
        var r :| r in inFlight && inFlight[r] == k;
        assert inFlight'[r] == k;
      }
    }
  }

  lemma PairedJoin(p: Handlers, inFlight: map<nat, nat>, lastId: nat, o: nat, h: Item)
    requires Paired(p, inFlight, lastId) && o in p && h.Passed?
    ensures Paired(p[o := p[o] + [h]], inFlight, lastId)
  {
  }

  lemma PairedDone(p: Handlers, inFlight: map<nat, nat>, lastId: nat, r: nat)
    requires Paired(p, inFlight, lastId) && r in inFlight
    ensures Paired(p - {inFlight[r]}, inFlight - {r}, lastId)
  {
    forall k | k in p && k != inFlight[r] ensures k in (inFlight - {r}).Values {
      var s :| s in inFlight && inFlight[s] == k;
      assert (inFlight - {r})[s] == k;
    }
  }

  /** A call joins the list of its origin, or starts list and request. */
  ghost predicate Entered(p: Handlers, inFlight: map<nat, nat>, lastId: nat, ask: Ask,
                          p': Handlers, inFlight': map<nat, nat>, lastId': nat)
  {
    && p' == p[ask.origin := ListOf(p, ask.origin) + Added(p, ask)]
    && if ask.origin in p then inFlight' == inFlight && lastId' == lastId
       else lastId' == lastId + 1 && inFlight' == inFlight[lastId' := ask.origin]
  }

  lemma PairedEntered(p: Handlers, inFlight: map<nat, nat>, lastId: nat, ask: Ask,
                      p': Handlers, inFlight': map<nat, nat>, lastId': nat)
    requires Paired(p, inFlight, lastId) && Entered(p, inFlight, lastId, ask, p', inFlight', lastId')
    ensures Paired(p', inFlight', lastId')
  {
    if ask.origin in p {
      PairedJoin(p, inFlight, lastId, ask.origin, Passed(ask.handler));
    } else {
      var more := Added(p, ask);
      assert [] + more == more;
      PairedStart(p, inFlight, lastId, ask.origin, more, p', inFlight');
    }
  }

  datatype Moment = Moment(passed: multiset<Handler>, ran: seq<Item>, inFlight: map<nat, nat>, lastId: nat)

  /** From one moment to a later one. */
  ghost predicate Since(before: Moment, after: Moment, more: multiset<Handler>) {
    && Meanwhile(before.passed, before.ran, after.passed, after.ran, more) && before.ran <= after.ran
    && Grown(before.inFlight, before.lastId, after.inFlight, after.lastId)
  }

  lemma SinceMore(start: Moment, before: Moment, after: Moment, asks: seq<Ask>, i: nat)
    requires i < |asks| && Since(start, before, Of(asks[..i])) && Since(before, after, multiset{asks[i].handler})
    ensures Since(start, after, Of(asks[..i + 1]))
  {
    OfMore(asks, i);
    SinceBoth(start, before, after, Of(asks[..i]), multiset{asks[i].handler});
  }

  lemma SinceBoth(start: Moment, before: Moment, after: Moment, a: multiset<Handler>, b: multiset<Handler>)
    requires Since(start, before, a) && Since(before, after, b)
    ensures Since(start, after, a + b)
  {
    MeanwhileBoth(start.passed, start.ran, before.passed, before.ran, after.passed, after.ran, a, b);
  }

  class References {
    var handlers: Handlers
    var inFlight: map<nat, nat>
    var lastId: nat
    ghost var asked: multiset<Item>
    ghost var passed: multiset<Handler>
    ghost var ran: seq<Item>
    ghost var running: seq<Item>

    ghost predicate Whole()
      reads this
    {
      && Paired(handlers, inFlight, lastId) && Balanced(asked, ran, running, handlers)
      && Linked(asked, passed)
    }

    ghost predicate Valid()
      reads this
    {
      Whole() && running == []
    }

    constructor ()
      ensures Valid() && asked == multiset{} && passed == multiset{} && ran == [] && inFlight == map[]
    {
      handlers, inFlight, lastId := map[], map[], 0;
      asked, passed, ran, running := multiset{}, multiset{}, [], [];
    }

    /** requestFileReference: joins the list of a request in flight, or starts one. */
    method RequestFileReference(origin: nat, handler: Item)
      modifies this`handlers, this`inFlight, this`lastId
      ensures handlers == old(handlers)[origin := ListOf(old(handlers), origin) + [handler]]
      ensures if origin in old(handlers) then inFlight == old(inFlight) && lastId == old(lastId)
              else lastId == old(lastId) + 1 && inFlight == old(inFlight)[lastId := origin]
    {
      if origin in handlers {
        handlers := handlers[origin := handlers[origin] + [handler]];
        return;
      }
      assert [] + [handler] == [handler];
      handlers := handlers[origin := [handler]];
      lastId := lastId + 1;
      inFlight := inFlight[lastId := origin];
    }

    /** The list looked up afterwards is always there; the extra handler goes in behind the one that started it. */
    method AddExtra(origin: nat)
      requires origin in handlers
      modifies this`handlers
      ensures handlers == if |old(handlers)[origin]| == 1
                          then old(handlers)[origin := old(handlers)[origin] + [Extra(origin)]] else old(handlers)
    {
      if |handlers[origin]| == 1 {
        handlers := handlers[origin := handlers[origin] + [Extra(origin)]];
      }
    }

    method Enter(ask: Ask)
      requires ask.origin in handlers ==> |handlers[ask.origin]| > 0
      modifies this`handlers, this`inFlight, this`lastId
      ensures Entered(old(handlers), old(inFlight), old(lastId), ask, handlers, inFlight, lastId)
    {
      ghost var list, item := ListOf(handlers, ask.origin), Passed(ask.handler);
      assert list + [item] + [Extra(ask.origin)] == list + [item, Extra(ask.origin)];
      RequestFileReference(ask.origin, Passed(ask.handler));
      if ask.additional {
        AddExtra(ask.origin);
      }
    }

    method Request(ask: Ask)
      requires Whole()
      modifies this`handlers, this`inFlight, this`lastId, this`asked, this`passed
      ensures Whole() && passed == old(passed) + multiset{ask.handler}
      ensures asked == old(asked) + multiset(Added(old(handlers), ask))
      ensures Entered(old(handlers), old(inFlight), old(lastId), ask, handlers, inFlight, lastId)
    {
      ghost var handlers0, inFlight0, lastId0, asked0, passed0 := handlers, inFlight, lastId, asked, passed;
      ghost var more := Added(handlers, ask);
      Enter(ask);
      asked, passed := asked + multiset(more), passed + multiset{ask.handler};
      LinkedMore(asked0, passed0, ask.handler, more, asked, passed);
      BalancedPut(asked0, ran, running, handlers0, ask.origin, more, asked, handlers);
      PairedEntered(handlers0, inFlight0, lastId0, ask, handlers, inFlight, lastId);
    }

    /** refreshFileReference: with nothing to ask for, the handler is told so at once. */
    method RefreshFileReference(ask: Ask)
      requires Whole()
      modifies this`handlers, this`inFlight, this`lastId, this`asked, this`passed, this`ran
      ensures Whole() && Grown(old(inFlight), old(lastId), inFlight, lastId) && old(ran) <= ran
      ensures Meanwhile(old(passed), old(ran), passed, ran, multiset{ask.handler})
      ensures ask.available ==>
                ran == old(ran) && asked == old(asked) + multiset(Added(old(handlers), ask))
                && Entered(old(handlers), old(inFlight), old(lastId), ask, handlers, inFlight, lastId)
      ensures !ask.available ==> |ran| > |old(ran)| && ran[|old(ran)|] == Passed(ask.handler)
      decreases ask
    {
      if ask.available {
        Request(ask);
      } else {
        ghost var passed0, ran0 := passed, ran;
        TellAtOnce(ask.handler);
        ghost var passed1 := passed;
        RunHandler(ask.handler);
        MeanwhileTold(passed0, ran0, ask.handler, passed1, passed, ran);
      }
    }

    ghost method TellAtOnce(handler: Handler)
      requires Whole()
      modifies this`asked, this`passed, this`ran
      ensures Whole() && ran == old(ran) + [Passed(handler)] && passed == old(passed) + multiset{handler}
    {
      ghost var asked0, passed0 := asked, passed;
      BalancedAtOnce(asked, ran, running, handlers, Passed(handler), asked + multiset{Passed(handler)});
      asked, passed, ran := asked + multiset{Passed(handler)}, passed + multiset{handler}, ran + [Passed(handler)];
      LinkedMore(asked0, passed0, handler, [Passed(handler)], asked, passed);
    }

    /** What a handler does when it is run: it may ask again, also for its own origin. */
    method RunHandler(handler: Handler)
      requires Whole()
      modifies this`handlers, this`inFlight, this`lastId, this`asked, this`passed, this`ran
      ensures Whole() && Grown(old(inFlight), old(lastId), inFlight, lastId) && old(ran) <= ran
      ensures Meanwhile(old(passed), old(ran), passed, ran, Of(handler.asks))
      decreases handler
    {
      ghost var start := Now();
      var asks := handler.asks;
      assert asks[..0] == [];
      for i := 0 to |asks|
        invariant Whole() && Since(start, Now(), Of(asks[..i]))
      {
        ghost var before := Now();
        RefreshFileReference(asks[i]);
        SinceMore(start, before, Now(), asks, i);
      }
      assert asks[..|asks|] == asks;
    }

    ghost function Now(): Moment
      reads this
    {
      Moment(passed, ran, inFlight, lastId)
    }

    /** An answer, or a failure: the list is there; it goes first, then its handlers run in order. */
    method Answer(requestId: nat)
      requires Valid() && requestId in inFlight
      modifies this
      ensures Valid() && Grown(old(inFlight) - {requestId}, old(lastId), inFlight, lastId)
      ensures requestId !in inFlight && old(ran) <= ran
      ensures Meanwhile(old(passed), old(ran), passed, ran, multiset{})
    {
      var list := TakeList(requestId);
      RunAll(list);
    }

    method TakeList(requestId: nat) returns (list: seq<Item>)
      requires Valid() && requestId in inFlight
      modifies this`handlers, this`inFlight, this`running
      ensures Whole() && running == list && inFlight == old(inFlight) - {requestId}
      ensures old(inFlight)[requestId] in old(handlers) && list == old(handlers)[old(inFlight)[requestId]]
      ensures handlers == old(handlers) - {old(inFlight)[requestId]}
    {
      ghost var handlers0, inFlight0 := handlers, inFlight;
      var origin := inFlight[requestId];
      list := handlers[origin];
      handlers, inFlight := handlers - {origin}, inFlight - {requestId};
      running := list;
      PairedDone(handlers0, inFlight0, lastId, requestId);
      BalancedTaken(asked, ran, handlers0, origin);
    }

    ghost method TellNext()
      requires Whole() && |running| > 0
      modifies this`ran, this`running
      ensures Whole() && ran == old(ran) + [old(running[0])] && running == old(running[1..])
    {
      BalancedNext(asked, ran, running, handlers);
      ran, running := ran + [running[0]], running[1..];
    }

    method RunAll(list: seq<Item>)
      requires Whole() && running == list
      modifies this
      ensures Valid() && Grown(old(inFlight), old(lastId), inFlight, lastId) && old(ran) <= ran
      ensures Meanwhile(old(passed), old(ran), passed, ran, multiset{})
    {
      ghost var passed0, ran0, inFlight0, lastId0 := passed, ran, inFlight, lastId;
      for i := 0 to |list|
        invariant Whole() && Grown(inFlight0, lastId0, inFlight, lastId) && ran0 <= ran
        invariant running == list[i..]
        invariant Meanwhile(passed0, ran0, passed, ran, multiset{})
      {
        ghost var passed1, ran1 := passed, ran;
        RunItem(list[i]);
        MeanwhileBoth(passed0, ran0, passed1, ran1, passed, ran, multiset{}, multiset{});
        NoneAndNone();
      }
    }

    method RunItem(item: Item)
      requires Whole() && |running| > 0 && running[0] == item
      modifies this
      ensures Whole() && Grown(old(inFlight), old(lastId), inFlight, lastId) && old(ran) + [item] <= ran
      ensures running == old(running[1..])
      ensures Meanwhile(old(passed), old(ran), passed, ran, multiset{})
    {
      ghost var passed0, ran0 := passed, ran;
      TellNext();
      if item.Passed? {
        RunHandler(item.handler);
      }
      MeanwhileRun(passed0, ran0, item, passed, ran);
    }

    /** With no request in flight nobody waits: every handler has run, as often as it was passed. */
    lemma Quiet()
      requires Valid() && inFlight == map[]
      ensures handlers == map[] && multiset(ran) == asked
    {
    }
  }

  /** No request is lost, and those that come are new. */
  ghost predicate Grown(inFlight: map<nat, nat>, lastId: nat, inFlight': map<nat, nat>, lastId': nat) {
    && lastId <= lastId'
    && (forall r :: r in inFlight ==> r in inFlight' && inFlight'[r] == inFlight[r])
    && (forall r :: r in inFlight' && r !in inFlight ==> r > lastId)
  }

  /** What a call adds to the list of its origin: the extra handler only with the one that starts the request. */
  function Added(p: Handlers, ask: Ask): seq<Item> {
    if ask.origin !in p && ask.additional then [Passed(ask.handler), Extra(ask.origin)] else [Passed(ask.handler)]
  }

  /**
   * A call that starts the list of its origin enters its handler first, and behind it the extra one if
   * and only if it asks for that; any other call enters its handler alone, behind all that wait.
   */
  lemma EnteredMeans(p: Handlers, inFlight: map<nat, nat>, lastId: nat, ask: Ask, p': Handlers,
                     inFlight': map<nat, nat>, lastId': nat)
    requires Paired(p, inFlight, lastId) && Entered(p, inFlight, lastId, ask, p', inFlight', lastId')
    ensures ask.origin in p' && forall o :: o != ask.origin ==> (o in p' <==> o in p) && (o in p ==> p'[o] == p[o])
    ensures ask.origin in p ==> p'[ask.origin] == p[ask.origin] + [Passed(ask.handler)] && inFlight' == inFlight
    ensures ask.origin !in p ==>
              && |p'[ask.origin]| == (if ask.additional then 2 else 1) && p'[ask.origin][0] == Passed(ask.handler)
              && (ask.additional ==> p'[ask.origin][1] == Extra(ask.origin))
              && exists r :: r in inFlight' && r !in inFlight && inFlight'[r] == ask.origin
  {
    if ask.origin !in p {
      assert lastId + 1 in inFlight' && lastId + 1 !in inFlight;
    }
  }

  // Whole runs.

  datatype Event = Call(ask: Ask) | Response(requestId: nat)

  /** The handlers that callers pass. */
  function Called(events: seq<Event>): multiset<Handler> {
    if events == [] then multiset{}
    else
      var last := events[|events| - 1];
      Called(events[..|events| - 1]) + if last.Call? then multiset{last.ask.handler} else multiset{}
  }

  lemma CalledMore(events: seq<Event>, i: nat)
    requires i < |events|
    ensures Called(events[..i + 1])
         == Called(events[..i]) + if events[i].Call? then multiset{events[i].ask.handler} else multiset{}
  {
    assert events[..i + 1][..i] == events[..i];
  }

  lemma FromTheStart(passed: multiset<Handler>, ran: seq<Item>, called: multiset<Handler>)
    requires Meanwhile(multiset{}, [], passed, ran, called)
    ensures passed == called + PassedBy(ran)
  {
  }

  method Handle(r: References, event: Event)
    requires r.Valid()
    modifies r
    ensures r.Valid()
    ensures Meanwhile(old(r.passed), old(r.ran), r.passed, r.ran,
                      if event.Call? then multiset{event.ask.handler} else multiset{})
  {
    match event
    case Call(ask) =>
      r.RefreshFileReference(ask);
    case Response(requestId) =>
      if requestId in r.inFlight {
        r.Answer(requestId);
      }
  }

  /**
   * Any calls, answers and failures, in any order. Handlers passed are those of callers and of
   * handlers that have run; at rest each of them has run, as often as it was passed.
   */
  method Run(events: seq<Event>) returns (r: References)
    ensures fresh(r) && r.Valid()
    ensures r.handlers.Keys == r.inFlight.Values
    ensures r.passed == Called(events) + PassedBy(r.ran)
    ensures r.inFlight == map[] ==> forall h :: multiset(r.ran)[Passed(h)] == r.passed[h]
  {
    r := new References();
    for i := 0 to |events|
      invariant r.Valid() && fresh(r)
      invariant Meanwhile(multiset{}, [], r.passed, r.ran, Called(events[..i]))
    {
      ghost var passed, ran := r.passed, r.ran;
      Handle(r, events[i]);
      CalledMore(events, i);
      MeanwhileBoth(multiset{}, [], passed, ran, r.passed, r.ran, Called(events[..i]),
                    if events[i].Call? then multiset{events[i].ask.handler} else multiset{});
    }
    assert events[..|events|] == events;
    FromTheStart(r.passed, r.ran, Called(events));
    if r.inFlight == map[] {
      r.Quiet();
    }
  }
}
