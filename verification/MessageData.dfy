/** Message data requests: asked for one by one, sent in batches, each asker told once. */
module MessageData {
  import opened Ascending

  /** A caller's continuation, and what it asks for in turn when it is run. */
  datatype Callback = Callback(id: nat, asks: seq<Ask>)

  /** A call of requestMessageData. Channel 0 stands for no channel. */
  datatype Ask = Ask(channel: nat, msgId: int, done: Done)
  datatype Done = NoDone | Done(callback: Callback)

  function Asked(done: Done): seq<Callback> {
    if done.Done? then [done.callback] else []
  }

  datatype Request = Request(requestId: nat, callbacks: seq<Callback>)
  type Requests = map<int, Request>

  /** A request handed to the sender: for messages of one channel. */
  datatype Sent = Sent(channel: nat, ids: seq<int>)

  datatype Key = Key(channel: nat, msgId: int)
  type Entries = map<Key, Request>

  // One flat view of the entries without a channel and those of each channel.

  function In(plain: Requests, channels: map<nat, Requests>, channel: nat): Requests {
    if channel == 0 then plain
    else if channel in channels then channels[channel]
    else map[]
  }

  ghost predicate Agrees(p: Entries, plain: Requests, channels: map<nat, Requests>) {
    && 0 !in channels
    && (forall k {:trigger In(plain, channels, k.channel)} :: k in p <==> k.msgId in In(plain, channels, k.channel))
    && (forall k {:trigger In(plain, channels, k.channel)} :: k in p ==>
          p[k] == In(plain, channels, k.channel)[k.msgId])
  }

  lemma AgreesPut(p: Entries, plain: Requests, channels: map<nat, Requests>, k: Key, request: Request,
                  plain': Requests, channels': map<nat, Requests>)
    requires Agrees(p, plain, channels) && 0 !in channels'
    requires forall c :: c != k.channel ==> In(plain', channels', c) == In(plain, channels, c)
    requires In(plain', channels', k.channel) == In(plain, channels, k.channel)[k.msgId := request]
    ensures Agrees(p[k := request], plain', channels')
  {
    forall j: Key
      ensures j in p <==> j.msgId in In(plain, channels, j.channel)
      ensures j in p ==> p[j] == In(plain, channels, j.channel)[j.msgId]
    {
    }
  }

  // The callbacks that wait.

  ghost function Waiting(p: Entries): multiset<Callback> {
    if p == map[] then multiset{}
    else
      var k :| k in p;
      multiset(p[k].callbacks) + Waiting(p - {k})
  }

  lemma WithoutBoth(p: Entries, j: Key, k: Key)
    ensures p - {j} - {k} == p - {k} - {j}
  {
  }

  lemma {:induction false} WaitingSplit(p: Entries, k: Key)
    requires k in p
    ensures Waiting(p) == multiset(p[k].callbacks) + Waiting(p - {k})
    decreases |p|
  {
    var j :| j in p && Waiting(p) == multiset(p[j].callbacks) + Waiting(p - {j});
    if j != k {
      WithoutBoth(p, j, k);
      WaitingSplit(p - {j}, k);
      WaitingSplit(p - {k}, j);
    }
  }

  /** The entry that also holds more callbacks. */
  function More(p: Entries, k: Key, more: seq<Callback>): Request {
    if k in p then p[k].(callbacks := p[k].callbacks + more) else Request(0, more)
  }

  /** Callbacks join an entry behind those that came before. */
  lemma MoreInOrder(p: Entries, k: Key, first: seq<Callback>, then_: seq<Callback>)
    ensures var q := p[k := More(p, k, first)];
            && q[k := More(q, k, then_)] == p[k := More(p, k, first + then_)]
            && (k !in p ==> More(p, k, first) == Request(0, first))
  {
    if k in p {
      assert p[k].callbacks + first + then_ == p[k].callbacks + (first + then_);
    }
  }

  lemma SameRest(p: Entries, k: Key, request: Request, q: Entries)
    requires q == p[k := request]
    ensures q - {k} == p - {k} && (k !in p ==> p - {k} == p)
  {
  }

  lemma WaitingMore(p: Entries, k: Key, q: Entries, more: seq<Callback>)
    requires q == p[k := More(p, k, more)]
    ensures Waiting(q) == Waiting(p) + multiset(more)
  {
    var before := if k in p then p[k].callbacks else [];
    SameRest(p, k, q[k], q);
    WaitingSplit(q, k);
    if k in p {
      WaitingSplit(p, k);
    }
    assert multiset(before + more) == multiset(before) + multiset(more);
    assert q[k].callbacks == before + more;
  }

  /** Every callback ever passed has run, is about to, or waits; each as often as it was passed. */
  ghost predicate Balanced(asked: multiset<Callback>, ran: seq<Callback>, running: seq<Callback>, p: Entries) {
    asked == multiset(ran) + multiset(running) + Waiting(p)
  }

  lemma BalancedMore(asked: multiset<Callback>, ran: seq<Callback>, running: seq<Callback>,
                     p: Entries, k: Key, more: seq<Callback>, q: Entries)
    requires Balanced(asked, ran, running, p) && q == p[k := More(p, k, more)]
    ensures Balanced(asked + multiset(more), ran, running, q)
  {
    WaitingMore(p, k, q, more);
  }

  /** Stamping changes no callback. */
  lemma {:induction false} WaitingSame(p: Entries, q: Entries)
    requires p.Keys == q.Keys && forall k :: k in p ==> p[k].callbacks == q[k].callbacks
    ensures Waiting(p) == Waiting(q)
    decreases |p|
  {
    if p != map[] {
      var k :| k in p;
      WaitingSplit(p, k);
      WaitingSplit(q, k);
      WaitingSame(p - {k}, q - {k});
    } else {
      assert q == map[];
    }
  }

  /** The callbacks of the entries of one request, in the order of their message ids. */
  ghost function Gathered(m: Requests, requestId: nat, keys: set<int>): seq<Callback>
    requires keys <= m.Keys
  {
    if keys == {} then []
    else
      var k := Least(keys);
      CallbacksFor(m[k], requestId) + Gathered(m, requestId, keys - {k})
  }

  function CallbacksFor(request: Request, requestId: nat): seq<Callback> {
    if request.requestId == requestId then request.callbacks else []
  }

  ghost function Without(p: Entries, channel: nat, requestId: nat, keys: set<int>): Entries {
    map k | k in p && !(k.channel == channel && k.msgId in keys && p[k].requestId == requestId) :: p[k]
  }

  /** Taking one more key out of the entries, when it is one of the request's and when it is not. */
  lemma WithoutOne(p: Entries, channel: nat, requestId: nat, keys: set<int>, k: int)
    requires k in keys && Key(channel, k) in p
    ensures Without(p, channel, requestId, keys)
         == if p[Key(channel, k)].requestId == requestId
            then Without(p - {Key(channel, k)}, channel, requestId, keys - {k})
            else Without(p, channel, requestId, keys - {k})
  {
  }

  lemma {:induction false} WaitingWithout(p: Entries, channel: nat, m: Requests, requestId: nat, keys: set<int>)
    requires keys <= m.Keys && forall k :: k in keys ==> Key(channel, k) in p && p[Key(channel, k)] == m[k]
    ensures Waiting(p) == multiset(Gathered(m, requestId, keys)) + Waiting(Without(p, channel, requestId, keys))
    decreases |keys|
  {
    if keys == {} {
      assert Without(p, channel, requestId, keys) == p;
    } else {
      var k := Least(keys);
      var rest := keys - {k};
      WithoutOne(p, channel, requestId, keys, k);
      if m[k].requestId == requestId {
        var q := p - {Key(channel, k)};
        WaitingSplit(p, Key(channel, k));
        WaitingWithout(q, channel, m, requestId, rest);
      } else {
        WaitingWithout(p, channel, m, requestId, rest);
      }
    }
  }

  /**
   * What sending has promised: an unsent entry is about to be sent, unless its channel is still
   * to be looked at; a sent one is to be answered, and an answer is for the entries of its request.
   */
  ghost predicate Kept(p: Entries, delayed: bool, unseen: set<int>, inFlight: map<nat, Sent>, lastId: nat) {
    && (forall r :: r in inFlight ==> 0 < r <= lastId && inFlight[r].ids != [] && Increasing(inFlight[r].ids))
    && (forall k :: k in p ==>
          if p[k].requestId == 0 then delayed || k.channel in unseen
          else p[k].requestId in inFlight && inFlight[p[k].requestId].channel == k.channel
               && k.msgId in inFlight[p[k].requestId].ids)
    && (forall r, id :: r in inFlight && id in inFlight[r].ids ==>
          && Key(inFlight[r].channel, id) in p
          && p[Key(inFlight[r].channel, id)].requestId == r)
  }

  lemma KeptMore(p: Entries, delayed: bool, inFlight: map<nat, Sent>, lastId: nat, k: Key, more: seq<Callback>,
                 q: Entries, delayed': bool)
    requires delayed' == (delayed || More(p, k, more).requestId == 0)
    requires Kept(p, delayed, {}, inFlight, lastId)
    requires q == p[k := More(p, k, more)]
    ensures Kept(q, delayed', {}, inFlight, lastId)
  {
  }

  function StampedOne(request: Request, requestId: nat): Request {
    if request.requestId == 0 then request.(requestId := requestId) else request
  }

  /** What one new request takes along: every unsent entry of its channel. */
  ghost function Stamped(p: Entries, channel: nat, requestId: nat): Entries {
    map k | k in p :: if k.channel == channel then StampedOne(p[k], requestId) else p[k]
  }

  ghost predicate Unsent(p: Entries, channel: nat, ids: seq<int>) {
    && Increasing(ids)
    && forall id :: id in ids <==> Key(channel, id) in p && p[Key(channel, id)].requestId == 0
  }

  /** At most one new request, and exactly when an entry of the channel is unsent. */
  ghost predicate Sending(p: Entries, inFlight: map<nat, Sent>, lastId: nat, channel: nat, ids: seq<int>,
                          p': Entries, inFlight': map<nat, Sent>, lastId': nat)
  {
    && Unsent(p, channel, ids)
    && if ids == [] then p' == p && inFlight' == inFlight && lastId' == lastId
       else lastId' == lastId + 1 && inFlight' == inFlight[lastId' := Sent(channel, ids)]
            && p' == Stamped(p, channel, lastId')
  }

  lemma KeptSending(p: Entries, unseen: set<int>, inFlight: map<nat, Sent>, lastId: nat, channel: nat, ids: seq<int>,
                    p': Entries, inFlight': map<nat, Sent>, lastId': nat)
    requires Kept(p, false, unseen, inFlight, lastId)
    requires Sending(p, inFlight, lastId, channel, ids, p', inFlight', lastId')
    ensures Kept(p', false, unseen - {channel}, inFlight', lastId')
  {
    if ids != [] {
      KeptSent(p, unseen, inFlight, lastId, channel, ids);
    } else {
      KeptNothing(p, unseen, inFlight, lastId, channel);
    }
  }

  lemma BalancedSending(asked: multiset<Callback>, ran: seq<Callback>, running: seq<Callback>,
                        p: Entries, inFlight: map<nat, Sent>, lastId: nat, channel: nat, ids: seq<int>,
                        p': Entries, inFlight': map<nat, Sent>, lastId': nat)
    requires Balanced(asked, ran, running, p)
    requires Sending(p, inFlight, lastId, channel, ids, p', inFlight', lastId')
    ensures Balanced(asked, ran, running, p')
  {
    WaitingSame(p, p');
  }

  lemma KeptSent(p: Entries, unseen: set<int>, inFlight: map<nat, Sent>, lastId: nat, channel: nat, ids: seq<int>)
    requires Kept(p, false, unseen, inFlight, lastId) && Unsent(p, channel, ids) && ids != []
    ensures Kept(Stamped(p, channel, lastId + 1), false, unseen - {channel},
                 inFlight[lastId + 1 := Sent(channel, ids)], lastId + 1)
  {
    var requestId := lastId + 1;
    var q, sent := Stamped(p, channel, requestId), inFlight[requestId := Sent(channel, ids)];
    forall k | k in q
      ensures if q[k].requestId == 0 then k.channel in unseen - {channel}
              else q[k].requestId in sent && sent[q[k].requestId].channel == k.channel
                   && k.msgId in sent[q[k].requestId].ids
    {
      assert k == Key(k.channel, k.msgId);
    }
  }

  lemma KeptNothing(p: Entries, unseen: set<int>, inFlight: map<nat, Sent>, lastId: nat, channel: nat)
    requires Kept(p, false, unseen, inFlight, lastId) && Unsent(p, channel, [])
    ensures Kept(p, false, unseen - {channel}, inFlight, lastId)
  {
    assert forall k :: k in p && k.channel == channel ==> k == Key(channel, k.msgId) && k.msgId !in [];
  }

  /** Sending so far: only unsent entries of the channels seen changed, one new request for each channel. */
  ghost predicate Resolving(p: Entries, inFlight: map<nat, Sent>, lastId: nat, unseen: set<int>,
                            p': Entries, inFlight': map<nat, Sent>, lastId': nat)
  {
    && lastId <= lastId' && p'.Keys == p.Keys
    && (forall k :: k in p ==>
          && p'[k].callbacks == p[k].callbacks
          && (p[k].requestId != 0 || k.channel in unseen ==> p'[k] == p[k]))
    && (forall r :: r in inFlight' && r <= lastId <==> r in inFlight)
    && (forall r :: r in inFlight ==> inFlight'[r] == inFlight[r])
    && (forall r :: r in inFlight' && r > lastId ==> r <= lastId' && inFlight'[r].channel !in unseen)
    && (forall r, other :: r in inFlight' && r > lastId && other in inFlight' && other > lastId ==>
          inFlight'[r].channel == inFlight'[other].channel ==> r == other)
  }

  lemma ResolvingMore(p: Entries, inFlight: map<nat, Sent>, lastId: nat, unseen: set<int>,
                      q: Entries, sent: map<nat, Sent>, last: nat, channel: nat, ids: seq<int>,
                      p': Entries, inFlight': map<nat, Sent>, lastId': nat)
    requires Resolving(p, inFlight, lastId, unseen, q, sent, last)
    requires Sending(q, sent, last, channel, ids, p', inFlight', lastId') && channel in unseen
    ensures Resolving(p, inFlight, lastId, unseen - {channel}, p', inFlight', lastId')
  {
  }

  /** What an answer leaves: every entry but those of its request. */
  ghost function Answered(p: Entries, channel: nat, requestId: nat): Entries {
    map k | k in p && !(k.channel == channel && p[k].requestId == requestId) :: p[k]
  }

  lemma KeptAnswered(p: Entries, delayed: bool, inFlight: map<nat, Sent>, lastId: nat, requestId: nat,
                     p': Entries, inFlight': map<nat, Sent>)
    requires Kept(p, delayed, {}, inFlight, lastId) && requestId in inFlight
    requires p' == Answered(p, inFlight[requestId].channel, requestId) && inFlight' == inFlight - {requestId}
    ensures Kept(p', delayed, {}, inFlight', lastId)
  {
  }

  lemma BalancedAnswered(asked: multiset<Callback>, ran: seq<Callback>, p: Entries,
                         plain: Requests, channels: map<nat, Requests>, channel: nat, requestId: nat,
                         p': Entries, callbacks: seq<Callback>)
    requires Balanced(asked, ran, [], p) && Agrees(p, plain, channels) && p' == Answered(p, channel, requestId)
    requires var m := In(plain, channels, channel); callbacks == Gathered(m, requestId, m.Keys)
    ensures Balanced(asked, ran, callbacks, p')
  {
    var m := In(plain, channels, channel);
    forall id | id in m ensures Key(channel, id) in p && p[Key(channel, id)] == m[id] {
      var k := Key(channel, id);
      assert k in p <==> k.msgId in In(plain, channels, k.channel);
    }
    WaitingWithout(p, channel, m, requestId, m.Keys);
    forall k | k in p && k.channel == channel ensures k.msgId in m {
      assert k.msgId in In(plain, channels, k.channel);
    }
    assert Without(p, channel, requestId, m.Keys) == Answered(p, channel, requestId);
  }

  lemma AgreesAnswered(p: Entries, plain: Requests, channels: map<nat, Requests>, channel: nat, requestId: nat,
                       plain': Requests, channels': map<nat, Requests>)
    requires Agrees(p, plain, channels) && 0 !in channels'
    requires forall c :: c != channel ==> In(plain', channels', c) == In(plain, channels, c)
    requires In(plain', channels', channel)
          == var m := In(plain, channels, channel); map id | id in m && m[id].requestId != requestId :: m[id]
    ensures Agrees(Answered(p, channel, requestId), plain', channels')
  {
    var q := Answered(p, channel, requestId);
    forall k: Key
      ensures k in q <==> k.msgId in In(plain', channels', k.channel)
      ensures k in q ==> q[k] == In(plain', channels', k.channel)[k.msgId]
    {
      assert k in p <==> k.msgId in In(plain, channels, k.channel);
    }
  }

  // What callbacks ask for when they are run.

  /** The callback a call passes, if it passes one. */
  function PassedWith(done: Done): multiset<Callback> {
    match done
    case NoDone => multiset{}
    case Done(callback) => multiset{callback}
  }

  function Passed(asks: seq<Ask>): multiset<Callback> {
    if asks == [] then multiset{}
    else Passed(asks[..|asks| - 1]) + PassedWith(asks[|asks| - 1].done)
  }

  function PassedAll(callbacks: seq<Callback>): multiset<Callback> {
    if callbacks == [] then multiset{}
    else PassedAll(callbacks[..|callbacks| - 1]) + Passed(callbacks[|callbacks| - 1].asks)
  }

  ghost predicate PassedUpTo(was: multiset<Callback>, asks: seq<Ask>, i: nat, asked: multiset<Callback>)
    requires i <= |asks|
  {
    asked == was + Passed(asks[..i])
  }

  lemma PassedMore(was: multiset<Callback>, asks: seq<Ask>, i: nat, asked: multiset<Callback>,
                   asked': multiset<Callback>)
    requires i < |asks| && PassedUpTo(was, asks, i, asked) && asked' == asked + PassedWith(asks[i].done)
    ensures PassedUpTo(was, asks, i + 1, asked')
  {
    assert asks[..i + 1][..i] == asks[..i];
  }

  lemma PassedAllMore(callbacks: seq<Callback>, callback: Callback)
    ensures PassedAll(callbacks + [callback]) == PassedAll(callbacks) + Passed(callback.asks)
  {
    assert (callbacks + [callback])[..|callbacks|] == callbacks;
  }

  /** Everything passed came from a caller or from a callback that has run. */
  ghost predicate Accounted(asked: multiset<Callback>, called: multiset<Callback>, ran: seq<Callback>) {
    asked == called + PassedAll(ran)
  }

  lemma AccountedMore(asked: multiset<Callback>, called: multiset<Callback>, ran: seq<Callback>,
                      callback: Callback, asked': multiset<Callback>)
    requires Accounted(asked, called, ran) && asked' == asked + Passed(callback.asks)
    ensures Accounted(asked', called, ran + [callback])
  {
    PassedAllMore(ran, callback);
  }

  lemma AccountedCall(asked: multiset<Callback>, called: multiset<Callback>, ran: seq<Callback>, done: Done,
                      asked': multiset<Callback>, called': multiset<Callback>)
    requires Accounted(asked, called, ran)
    requires asked' == asked + PassedWith(done) && called' == called + PassedWith(done)
    ensures Accounted(asked', called', ran)
  {
  }

  lemma BalancedNext(asked: multiset<Callback>, ran: seq<Callback>, running: seq<Callback>, p: Entries)
    requires Balanced(asked, ran, running, p) && |running| > 0
    ensures Balanced(asked, ran + [running[0]], running[1..], p)
  {
    assert running == [running[0]] + running[1..];
  }

  lemma AgreesStamped(p: Entries, plain: Requests, channels: map<nat, Requests>, channel: nat, requestId: nat,
                      plain': Requests, channels': map<nat, Requests>)
    requires Agrees(p, plain, channels) && 0 !in channels'
    requires forall c :: c != channel ==> In(plain', channels', c) == In(plain, channels, c)
    requires In(plain', channels', channel).Keys == In(plain, channels, channel).Keys
    requires forall id :: id in In(plain, channels, channel) ==>
               In(plain', channels', channel)[id] == StampedOne(In(plain, channels, channel)[id], requestId)
    ensures Agrees(Stamped(p, channel, requestId), plain', channels')
  {
    var q := Stamped(p, channel, requestId);
    forall k: Key
      ensures k in q <==> k.msgId in In(plain', channels', k.channel)
      ensures k in q ==> q[k] == In(plain', channels', k.channel)[k.msgId]
    {
      assert k in p <==> k.msgId in In(plain, channels, k.channel);
    }
  }

  lemma AgreesErase(p: Entries, plain: Requests, channels: map<nat, Requests>, channel: nat)
    requires Agrees(p, plain, channels) && channel in channels && channels[channel] == map[]
    ensures Agrees(p, plain, channels - {channel})
  {
    forall k: Key
      ensures k in p <==> k.msgId in In(plain, channels - {channel}, k.channel)
      ensures k in p ==> p[k] == In(plain, channels - {channel}, k.channel)[k.msgId]
    {
      assert k in p <==> k.msgId in In(plain, channels, k.channel);
    }
  }

  lemma AgreesNone(p: Entries, plain: Requests, channels: map<nat, Requests>)
    requires Agrees(p, plain, channels) && plain == map[] && channels == map[]
    ensures p == map[]
  {
    forall k: Key ensures k !in p {
      assert k in p <==> k.msgId in In(plain, channels, k.channel);
    }
  }

  lemma KeptUnseen(p: Entries, plain: Requests, channels: map<nat, Requests>, delayed: bool,
                   inFlight: map<nat, Sent>, lastId: nat)
    requires Agrees(p, plain, channels) && Kept(p, delayed, {}, inFlight, lastId)
    ensures Kept(p, false, {0} + channels.Keys, inFlight, lastId)
  {
    forall k | k in p ensures k.channel in {0} + channels.Keys {
      assert k.msgId in In(plain, channels, k.channel);
    }
  }

  lemma UnsentIn(p: Entries, plain: Requests, channels: map<nat, Requests>, channel: nat, ids: seq<int>)
    requires Agrees(p, plain, channels) && Increasing(ids)
    requires forall id :: id in ids <==>
               id in In(plain, channels, channel) && In(plain, channels, channel)[id].requestId == 0
    ensures Unsent(p, channel, ids)
  {
    forall id ensures id in ids <==> Key(channel, id) in p && p[Key(channel, id)].requestId == 0 {
      var k := Key(channel, id);
      assert k in p <==> k.msgId in In(plain, channels, k.channel);
    }
  }

  /** The entries that are not of the request, and those left to look at. */
  function TakenBut(m: Requests, requestId: nat, left: set<int>): Requests {
    map id | id in m && (id in left || m[id].requestId != requestId) :: m[id]
  }

  lemma TakenMore(m: Requests, requestId: nat, left: set<int>, id: int)
    requires id in m && id in left
    ensures id in TakenBut(m, requestId, left) && TakenBut(m, requestId, left)[id] == m[id]
    ensures TakenBut(m, requestId, left - {id})
         == if m[id].requestId == requestId then TakenBut(m, requestId, left) - {id} else TakenBut(m, requestId, left)
  {
  }

  lemma GatheredMore(m: Requests, requestId: nat, left: set<int>, callbacks: seq<Callback>)
    requires left <= m.Keys && |left| > 0
    ensures var id := Least(left);
            callbacks + CallbacksFor(m[id], requestId) + Gathered(m, requestId, left - {id})
            == callbacks + Gathered(m, requestId, left)
  {
    var id := Least(left);
    Associate(callbacks, CallbacksFor(m[id], requestId), Gathered(m, requestId, left - {id}));
  }

  /** Callbacks come in the order of their messages: those of smaller ids before those of greater ones. */
  lemma {:induction false} GatheredInOrder(m: Requests, requestId: nat, a: set<int>, b: set<int>)
    requires a + b <= m.Keys && forall x, y :: x in a && y in b ==> x < y
    ensures Gathered(m, requestId, a + b) == Gathered(m, requestId, a) + Gathered(m, requestId, b)
    decreases |a|
  {
    if a == {} {
      assert a + b == b;
    } else {
      var id := Least(a);
      LeastOfBoth(a, b);
      GatheredInOrder(m, requestId, a - {id}, b);
      assert (a + b) - {id} == (a - {id}) + b;
      Associate(CallbacksFor(m[id], requestId), Gathered(m, requestId, a - {id}), Gathered(m, requestId, b));
    }
  }

  lemma LeastOfBoth(a: set<int>, b: set<int>)
    requires a != {} && forall x, y :: x in a && y in b ==> x < y
    ensures Least(a + b) == Least(a)
  {
    assert Least(a) in a + b;
  }

  /** Those of one message are its callbacks, as they came. */
  lemma GatheredOne(m: Requests, requestId: nat, id: int)
    requires id in m
    ensures Gathered(m, requestId, {id}) == if m[id].requestId == requestId then m[id].callbacks else []
  {
    assert {id} - {id} == {};
  }

  lemma Associate<T>(a: seq<T>, b: seq<T>, c: seq<T>)
    ensures a + b + c == a + (b + c)
  {
  }

  /** The first i callbacks have run, in order; the others are still to run. */
  ghost predicate Running(was: seq<Callback>, callbacks: seq<Callback>, i: nat,
                          ran: seq<Callback>, running: seq<Callback>)
  {
    i <= |callbacks| && ran == was + callbacks[..i] && running == callbacks[i..]
  }

  lemma RunningMore(was: seq<Callback>, callbacks: seq<Callback>, i: nat, ran: seq<Callback>, running: seq<Callback>)
    requires i < |callbacks| && Running(was, callbacks, i, ran, running)
    ensures |running| > 0 && running[0] == callbacks[i]
    ensures Running(was, callbacks, i + 1, ran + [callbacks[i]], running[1..])
  {
  }

  lemma NothingResolved(p: Entries, inFlight: map<nat, Sent>, lastId: nat, unseen: set<int>)
    requires forall r :: r in inFlight ==> r <= lastId
    ensures Resolving(p, inFlight, lastId, unseen, p, inFlight, lastId)
  {
  }

  class MessageDatas {
    var requests: Requests
    var channelRequests: map<nat, Requests>
    var delayed: bool
    var inFlight: map<nat, Sent>
    var lastId: nat
    ghost var pending: Entries
    ghost var asked: multiset<Callback>
    ghost var ran: seq<Callback>
    ghost var running: seq<Callback>

    ghost predicate Promised()
      reads this
    {
      Agrees(pending, requests, channelRequests) && Kept(pending, delayed, {}, inFlight, lastId)
    }

    ghost predicate Conserved()
      reads this
    {
      Balanced(asked, ran, running, pending)
    }

    ghost predicate Valid()
      reads this
    {
      Promised() && Conserved() && running == []
    }

    constructor ()
      ensures Valid() && asked == multiset{} && ran == [] && pending == map[] && inFlight == map[] && !delayed
    {
      requests, channelRequests, inFlight := map[], map[], map[];
      delayed, lastId, pending := false, 0, map[];
      asked, ran, running := multiset{}, [], [];
    }

    method Put(channel: nat, m: Requests)
      requires 0 !in channelRequests
      modifies this`requests, this`channelRequests
      ensures 0 !in channelRequests && In(requests, channelRequests, channel) == m
      ensures forall c :: c != channel ==>
                In(requests, channelRequests, c) == In(old(requests), old(channelRequests), c)
      ensures channel == 0 || channel in old(channelRequests) ==> channelRequests.Keys == old(channelRequests).Keys
    {
      if channel == 0 {
        requests := m;
      } else {
        channelRequests := channelRequests[channel := m];
      }
    }

    /** The entry of a message, made when it is missing. */
    method Push(channel: nat, msgId: int, done: Done) returns (requestId: nat)
      requires Agrees(pending, requests, channelRequests)
      modifies this`requests, this`channelRequests, this`pending
      ensures Agrees(pending, requests, channelRequests)
      ensures var p, key := old(pending), Key(channel, msgId);
              && pending == p[key := More(p, key, Asked(done))]
              && requestId == More(p, key, Asked(done)).requestId
    {
      ghost var key := Key(channel, msgId);
      assert key in pending <==> key.msgId in In(requests, channelRequests, key.channel);
      var m := In(requests, channelRequests, channel);
      var request := if msgId in m then m[msgId] else Request(0, []);
      if done.Done? {
        request := request.(callbacks := request.callbacks + [done.callback]);
      }
      assert request == More(pending, key, Asked(done));
      Put(channel, m[msgId := request]);
      AgreesPut(pending, old(requests), old(channelRequests), key, request, requests, channelRequests);
      pending := pending[key := request];
      requestId := request.requestId;
    }

    method RequestMessageData(channel: nat, msgId: int, done: Done)
      requires Promised() && Conserved()
      modifies this`requests, this`channelRequests, this`delayed, this`asked, this`pending
      ensures Promised() && Conserved()
      ensures asked == old(asked) + PassedWith(done)
      ensures var key, p := Key(channel, msgId), old(pending);
              && pending == p[key := More(p, key, Asked(done))]
              && delayed == (old(delayed) || More(p, key, Asked(done)).requestId == 0)
    {
      ghost var p, key, delayed0, asked0 := pending, Key(channel, msgId), delayed, asked;
      var requestId := Push(channel, msgId, done);
      if requestId == 0 {
        delayed := true;
      }
      asked := asked + PassedWith(done);
      assert PassedWith(done) == multiset(Asked(done));
      KeptMore(p, delayed0, inFlight, lastId, key, Asked(done), pending, delayed);
      BalancedMore(asked0, ran, running, p, key, Asked(done), pending);
    }

    // Sending.

    static method CollectMessageIds(m: Requests) returns (ids: seq<int>)
      ensures Increasing(ids)
      ensures forall id :: id in ids <==> id in m && m[id].requestId == 0
    {
      ids := [];
      var left := m.Keys;
      while |left| > 0
        invariant left <= m.Keys
        invariant Increasing(ids) && forall id, later :: id in ids && later in left ==> id < later
        invariant forall id :: id in ids <==> id in m && id !in left && m[id].requestId == 0
        decreases |left|
      {
        var id := Least(left);
        left := left - {id};
        if m[id].requestId == 0 {
          IncreasingMore(ids, id);
          ids := ids + [id];
        }
      }
    }

    static method Stamp(m: Requests, requestId: nat) returns (r: Requests)
      ensures r.Keys == m.Keys
      ensures forall id :: id in m ==> r[id] == StampedOne(m[id], requestId)
    {
      r := m;
      var left := m.Keys;
      while |left| > 0
        invariant left <= m.Keys == r.Keys
        invariant forall id :: id in m ==>
                    r[id] == if id in left then m[id] else StampedOne(m[id], requestId)
        decreases |left|
      {
        var id := Least(left);
        left := left - {id};
        if r[id].requestId == 0 {
          r := r[id := r[id].(requestId := requestId)];
        }
      }
    }

    /** Every unsent entry of the channel becomes part of the request. */
    method StampAll(channel: nat, requestId: nat)
      requires Agrees(pending, requests, channelRequests)
      modifies this`requests, this`channelRequests, this`pending
      ensures Agrees(pending, requests, channelRequests)
      ensures pending == Stamped(old(pending), channel, requestId)
      ensures channel == 0 || channel in old(channelRequests) ==> channelRequests.Keys == old(channelRequests).Keys
    {
      var m := Stamp(In(requests, channelRequests, channel), requestId);
      Put(channel, m);
      AgreesStamped(pending, old(requests), old(channelRequests), channel, requestId, requests, channelRequests);
      pending := Stamped(pending, channel, requestId);
    }

    method UnsentIds(channel: nat) returns (ids: seq<int>)
      requires Agrees(pending, requests, channelRequests)
      ensures Unsent(pending, channel, ids)
    {
      ids := CollectMessageIds(In(requests, channelRequests, channel));
      UnsentIn(pending, requests, channelRequests, channel, ids);
    }

    /** One request for the unsent entries of a channel, if there are any. */
    method Send(channel: nat) returns (ids: seq<int>)
      requires Agrees(pending, requests, channelRequests)
      modifies this`requests, this`channelRequests, this`pending, this`inFlight, this`lastId
      ensures Agrees(pending, requests, channelRequests)
      ensures channel == 0 || channel in old(channelRequests) ==> channelRequests.Keys == old(channelRequests).Keys
      ensures Sending(old(pending), old(inFlight), old(lastId), channel, ids, pending, inFlight, lastId)
    {
      ids := UnsentIds(channel);
      if ids != [] {
        lastId := lastId + 1;
        inFlight := inFlight[lastId := Sent(channel, ids)];
        StampAll(channel, lastId);
      }
    }

    method SendNext(channel: nat, ghost unseen: set<int>) returns (ids: seq<int>)
      requires Agrees(pending, requests, channelRequests)
      requires Kept(pending, false, unseen, inFlight, lastId) && Conserved()
      modifies this`requests, this`channelRequests, this`pending, this`inFlight, this`lastId
      ensures Agrees(pending, requests, channelRequests)
      ensures Kept(pending, false, unseen - {channel}, inFlight, lastId) && Conserved()
      ensures channel == 0 || channel in old(channelRequests) ==> channelRequests.Keys == old(channelRequests).Keys
      ensures Sending(old(pending), old(inFlight), old(lastId), channel, ids, pending, inFlight, lastId)
    {
      ids := Send(channel);
      KeptSending(old(pending), unseen, old(inFlight), old(lastId), channel, ids, pending, inFlight, lastId);
      BalancedSending(asked, ran, running, old(pending), old(inFlight), old(lastId), channel, ids, pending, inFlight,
                      lastId);
    }

    /** A channel without entries is forgotten. */
    method Visit(channel: nat, ghost unseen: set<int>) returns (ids: seq<int>)
      requires Agrees(pending, requests, channelRequests) && channel in channelRequests
      requires Kept(pending, false, unseen, inFlight, lastId) && Conserved()
      modifies this`requests, this`channelRequests, this`pending, this`inFlight, this`lastId
      ensures Agrees(pending, requests, channelRequests)
      ensures Kept(pending, false, unseen - {channel}, inFlight, lastId) && Conserved()
      ensures old(channelRequests).Keys - {channel} <= channelRequests.Keys
      ensures Sending(old(pending), old(inFlight), old(lastId), channel, ids, pending, inFlight, lastId)
    {
      if channelRequests[channel] == map[] {
        UnsentIn(pending, requests, channelRequests, channel, []);
        AgreesErase(pending, requests, channelRequests, channel);
        channelRequests := channelRequests - {channel};
        KeptNothing(pending, unseen, inFlight, lastId, channel);
        ids := [];
      } else {
        ids := SendNext(channel, unseen);
      }
    }

    method ResolveChannels(ghost p: Entries, ghost sent: map<nat, Sent>, ghost last: nat, ghost unseen: set<int>)
      requires Agrees(pending, requests, channelRequests) && unseen == channelRequests.Keys
      requires Kept(pending, false, unseen, inFlight, lastId) && Conserved()
      requires Resolving(p, sent, last, unseen, pending, inFlight, lastId)
      modifies this`requests, this`channelRequests, this`pending, this`inFlight, this`lastId
      ensures Agrees(pending, requests, channelRequests)
      ensures Kept(pending, false, {}, inFlight, lastId) && Conserved()
      ensures Resolving(p, sent, last, {}, pending, inFlight, lastId)
    {
      var left: set<int> := channelRequests.Keys;
      while |left| > 0
        invariant left <= channelRequests.Keys
        invariant Agrees(pending, requests, channelRequests) && Conserved()
        invariant Kept(pending, false, left, inFlight, lastId)
        invariant Resolving(p, sent, last, left, pending, inFlight, lastId)
        decreases |left|
      {
        ghost var p', sent', last' := pending, inFlight, lastId;
        var channel := Least(left);
        var ids := Visit(channel, left);
        ResolvingMore(p, sent, last, left, p', sent', last', channel, ids, pending, inFlight, lastId);
        left := left - {channel};
      }
      assert left == {};
    }

    /** The queued call: one request for each channel with unsent entries, one for entries without a channel. */
    method ResolveMessageDatas()
      requires Promised() && Conserved()
      modifies this`requests, this`channelRequests, this`pending, this`inFlight, this`lastId, this`delayed
      ensures Promised() && Conserved() && !delayed
      ensures Resolving(old(pending), old(inFlight), old(lastId), {}, pending, inFlight, lastId)
    {
      ghost var p, sent, last := pending, inFlight, lastId;
      ghost var unseen: set<int> := {0} + channelRequests.Keys;
      KeptUnseen(pending, requests, channelRequests, delayed, inFlight, lastId);
      delayed := false;
      if requests == map[] && channelRequests == map[] {
        AgreesNone(pending, requests, channelRequests);
        return;
      }
      var ids := SendNext(0, unseen);
      NothingResolved(p, sent, last, unseen);
      ResolvingMore(p, sent, last, unseen, p, sent, last, 0, ids, pending, inFlight, lastId);
      assert unseen - {0} == channelRequests.Keys;
      ResolveChannels(p, sent, last, unseen - {0});
    }

    // Answers.

    static method Take(m: Requests, requestId: nat) returns (rest: Requests, callbacks: seq<Callback>)
      ensures rest == map id | id in m && m[id].requestId != requestId :: m[id]
      ensures callbacks == Gathered(m, requestId, m.Keys)
    {
      rest, callbacks := m, [];
      var left := m.Keys;
      while |left| > 0
        invariant left <= m.Keys
        invariant rest == TakenBut(m, requestId, left)
        invariant callbacks + Gathered(m, requestId, left) == Gathered(m, requestId, m.Keys)
        decreases |left|
      {
        var id := Least(left);
        TakenMore(m, requestId, left, id);
        GatheredMore(m, requestId, left, callbacks);
        assert callbacks + [] == callbacks;
        if rest[id].requestId == requestId {
          callbacks := callbacks + rest[id].callbacks;
          rest := rest - {id};
        }
        left := left - {id};
      }
      assert left == {};
    }

    method TakeCallbacks(channel: nat, requestId: nat) returns (callbacks: seq<Callback>)
      requires Agrees(pending, requests, channelRequests)
      modifies this`requests, this`channelRequests, this`pending
      ensures Agrees(pending, requests, channelRequests)
      ensures pending == Answered(old(pending), channel, requestId)
      ensures var m := In(old(requests), old(channelRequests), channel); callbacks == Gathered(m, requestId, m.Keys)
    {
      var m := In(requests, channelRequests, channel);
      var rest;
      rest, callbacks := Take(m, requestId);
      if channel != 0 && channel !in channelRequests {
        assert rest == map[];
      } else if channel != 0 && rest == map[] {
        channelRequests := channelRequests - {channel};
      } else {
        Put(channel, rest);
      }
      AgreesAnswered(pending, old(requests), old(channelRequests), channel, requestId, requests, channelRequests);
      pending := Answered(pending, channel, requestId);
    }

    method TakeAnswered(channel: nat, requestId: nat) returns (callbacks: seq<Callback>)
      requires Valid() && requestId in inFlight && inFlight[requestId].channel == channel
      modifies this`requests, this`channelRequests, this`pending, this`inFlight, this`running
      ensures Promised() && Conserved() && running == callbacks
      ensures inFlight == old(inFlight) - {requestId}
      ensures var m := In(old(requests), old(channelRequests), channel); callbacks == Gathered(m, requestId, m.Keys)
    {
      ghost var p, sent, plain, channels := pending, inFlight, requests, channelRequests;
      callbacks := TakeCallbacks(channel, requestId);
      inFlight := inFlight - {requestId};
      running := callbacks;
      KeptAnswered(p, delayed, sent, lastId, requestId, pending, inFlight);
      BalancedAnswered(asked, ran, p, plain, channels, channel, requestId, pending, running);
    }

    /** An answer, or a failure: the entries of the request go first, then their callbacks run. */
    method FinalizeMessageDataRequest(channel: nat, requestId: nat, ghost called: multiset<Callback>)
      requires Valid() && requestId in inFlight && inFlight[requestId].channel == channel
      requires Accounted(asked, called, ran)
      modifies this
      ensures Valid() && Accounted(asked, called, ran)
      ensures inFlight == old(inFlight) - {requestId}
      ensures var m := In(old(requests), old(channelRequests), channel);
              ran == old(ran) + Gathered(m, requestId, m.Keys)
    {
      var callbacks := TakeAnswered(channel, requestId);
      RunCallbacks(callbacks, called);
    }

    method RunCallbacks(callbacks: seq<Callback>, ghost called: multiset<Callback>)
      requires Promised() && Conserved() && running == callbacks
      requires Accounted(asked, called, ran)
      modifies this`requests, this`channelRequests, this`pending, this`delayed, this`asked, this`ran, this`running
      ensures Valid() && Accounted(asked, called, ran)
      ensures ran == old(ran) + callbacks
    {
      ghost var was := ran;
      for i := 0 to |callbacks|
        invariant Promised() && Conserved()
        invariant Accounted(asked, called, ran) && Running(was, callbacks, i, ran, running)
      {
        ghost var ran0, running0 := ran, running;
        RunningMore(was, callbacks, i, ran0, running0);
        RunNext(callbacks[i], called);
      }
    }

    method RunNext(callback: Callback, ghost called: multiset<Callback>)
      requires Promised() && Conserved() && |running| > 0 && running[0] == callback
      requires Accounted(asked, called, ran)
      modifies this`requests, this`channelRequests, this`pending, this`delayed, this`asked, this`ran, this`running
      ensures Promised() && Conserved() && running == old(running[1..])
      ensures Accounted(asked, called, ran) && ran == old(ran) + [callback]
    {
      BalancedNext(asked, ran, running, pending);
      ran, running := ran + [callback], running[1..];
      RunCallback(callback);
      AccountedMore(old(asked), called, old(ran), callback, asked);
    }

    /** A callback may ask for messages again, also for those it has just been told about. */
    method RunCallback(callback: Callback)
      requires Promised() && Conserved()
      modifies this`requests, this`channelRequests, this`pending, this`delayed, this`asked
      ensures Promised() && Conserved()
      ensures asked == old(asked) + Passed(callback.asks)
    {
      var asks := callback.asks;
      ghost var was := asked;
      for i := 0 to |asks|
        invariant Promised() && Conserved()
        invariant PassedUpTo(was, asks, i, asked)
      {
        ghost var before := asked;
        RequestMessageData(asks[i].channel, asks[i].msgId, asks[i].done);
        PassedMore(was, asks, i, before, asked);
      }
      assert asks[..|asks|] == asks;
    }

    /** With nothing queued and nothing in flight, nobody waits: every callback has run, as often as it was passed. */
    lemma Quiet()
      requires Valid() && !delayed && inFlight == map[]
      ensures pending == map[] && multiset(ran) == asked
    {
      assert pending == map[] by {
        forall k ensures k !in pending {
        }
      }
    }
  }

  // Whole runs.

  datatype Event = Call(ask: Ask) | Queued | Response(requestId: nat)

  /** What callers passed, leaving out what callbacks passed. */
  function Called(events: seq<Event>): multiset<Callback> {
    if events == [] then multiset{}
    else
      var last := events[|events| - 1];
      Called(events[..|events| - 1]) + if last.Call? then PassedWith(last.ask.done) else multiset{}
  }

  lemma CalledMore(events: seq<Event>, i: nat)
    requires i < |events|
    ensures Called(events[..i + 1])
         == Called(events[..i]) + if events[i].Call? then PassedWith(events[i].ask.done) else multiset{}
  {
    assert events[..i + 1][..i] == events[..i];
  }

  /**
   * Any calls, queued calls and answers, in any order; one that cannot happen yet does not.
   * At rest, what has run is what callers and callbacks passed.
   */
  method Run(events: seq<Event>) returns (m: MessageDatas)
    ensures m.Valid()
    ensures multiset(m.ran) + Waiting(m.pending) == Called(events) + PassedAll(m.ran)
    ensures !m.delayed && m.inFlight == map[] ==>
              m.pending == map[] && multiset(m.ran) == Called(events) + PassedAll(m.ran)
  {
    m := new MessageDatas();
    for i := 0 to |events|
      invariant m.Valid() && Accounted(m.asked, Called(events[..i]), m.ran) && fresh(m)
    {
      CalledMore(events, i);
      Handle(m, events[i], Called(events[..i]), Called(events[..i + 1]));
    }
    assert events[..|events|] == events;
    if !m.delayed && m.inFlight == map[] {
      m.Quiet();
    }
  }

  method HandleCall(m: MessageDatas, ask: Ask, ghost called: multiset<Callback>, ghost called': multiset<Callback>)
    requires m.Valid() && Accounted(m.asked, called, m.ran)
    requires called' == called + PassedWith(ask.done)
    modifies m
    ensures m.Valid() && Accounted(m.asked, called', m.ran)
  {
    ghost var asked := m.asked;
    m.RequestMessageData(ask.channel, ask.msgId, ask.done);
    AccountedCall(asked, called, m.ran, ask.done, m.asked, called');
  }

  method HandleResponse(m: MessageDatas, requestId: nat, ghost called: multiset<Callback>)
    requires m.Valid() && Accounted(m.asked, called, m.ran) && requestId in m.inFlight
    modifies m
    ensures m.Valid() && Accounted(m.asked, called, m.ran)
  {
    m.FinalizeMessageDataRequest(m.inFlight[requestId].channel, requestId, called);
  }

  method HandleQueued(m: MessageDatas, ghost called: multiset<Callback>)
    requires m.Valid() && Accounted(m.asked, called, m.ran)
    modifies m
    ensures m.Valid() && Accounted(m.asked, called, m.ran)
  {
    m.ResolveMessageDatas();
  }

  method Handle(m: MessageDatas, event: Event, ghost called: multiset<Callback>, ghost called': multiset<Callback>)
    requires m.Valid() && Accounted(m.asked, called, m.ran)
    requires called' == called + if event.Call? then PassedWith(event.ask.done) else multiset{}
    modifies m
    ensures m.Valid() && Accounted(m.asked, called', m.ran)
  {
    assert !event.Call? ==> called' == called;
    match event
    case Call(ask) =>
      HandleCall(m, ask, called, called');
    case Queued =>
      if m.delayed {
        HandleQueued(m, called);
      }
    case Response(requestId) =>
      if requestId in m.inFlight {
        HandleResponse(m, requestId, called);
      }
  }
}
