/** Forwarding messages from several chats: one request for each run of messages from the same chat. */
module Forward {

  datatype Item = Item(peer: nat, id: int)

  datatype Batch = Batch(from: nat, ids: seq<int>, randomIds: seq<nat>)

  function Ids(items: seq<Item>): seq<int> {
    seq(|items|, i requires 0 <= i < |items| => items[i].id)
  }

  function AllIds(batches: seq<Batch>): seq<int> {
    if batches == [] then [] else AllIds(batches[..|batches| - 1]) + batches[|batches| - 1].ids
  }

  function AllRandomIds(batches: seq<Batch>): seq<nat> {
    if batches == [] then [] else AllRandomIds(batches[..|batches| - 1]) + batches[|batches| - 1].randomIds
  }

  /** The chats the messages come from, one for each message. */
  function Repeated(peer: nat, n: nat): seq<nat> { seq(n, _ => peer) }

  function AllPeers(batches: seq<Batch>): seq<nat> {
    if batches == [] then []
    else AllPeers(batches[..|batches| - 1]) + Repeated(batches[|batches| - 1].from, |batches[|batches| - 1].ids|)
  }

  function Peers(items: seq<Item>): seq<nat> {
    seq(|items|, i requires 0 <= i < |items| => items[i].peer)
  }

  /** No batch is empty, ids and random ids go in pairs, and neighbours come from different chats. */
  predicate Maximal(batches: seq<Batch>) {
    && (forall i :: 0 <= i < |batches| ==> 0 < |batches[i].ids| == |batches[i].randomIds|)
    && (forall i :: 0 <= i < |batches| - 1 ==> batches[i].from != batches[i + 1].from)
  }

  /** The batches are the items again: their ids, random ids and chats, in order, in maximal runs. */
  ghost predicate RunsOf(items: seq<Item>, randomIds: seq<nat>, batches: seq<Batch>) {
    && Maximal(batches)
    && AllIds(batches) == Ids(items) && AllPeers(batches) == Peers(items) && AllRandomIds(batches) == randomIds
  }

  lemma AppendBatch(batches: seq<Batch>, b: Batch)
    ensures AllIds(batches + [b]) == AllIds(batches) + b.ids
    ensures AllRandomIds(batches + [b]) == AllRandomIds(batches) + b.randomIds
    ensures AllPeers(batches + [b]) == AllPeers(batches) + Repeated(b.from, |b.ids|)
  {
    assert (batches + [b])[..|batches|] == batches;
  }

  /** The items before the accumulated ones went into batches; the accumulated ones are from one chat. */
  ghost predicate Accumulating(items: seq<Item>, randomIds: seq<nat>, n: nat, batches: seq<Batch>, open: Batch)
    requires n <= |items| == |randomIds|
  {
    && |open.ids| == |open.randomIds| && Maximal(batches)
    && (batches != [] ==> open.ids != [] && batches[|batches| - 1].from != open.from)
    && AllIds(batches) + open.ids == Ids(items[..n])
    && AllRandomIds(batches) + open.randomIds == randomIds[..n]
    && AllPeers(batches) + Repeated(open.from, |open.ids|) == Peers(items[..n])
  }

  lemma OneMoreItem(items: seq<Item>, n: nat)
    requires n < |items|
    ensures Ids(items[..n + 1]) == Ids(items[..n]) + [items[n].id]
    ensures Peers(items[..n + 1]) == Peers(items[..n]) + [items[n].peer]
  {
  }

  lemma OneMoreRandomId(randomIds: seq<nat>, n: nat)
    requires n < |randomIds|
    ensures randomIds[..n + 1] == randomIds[..n] + [randomIds[n]]
  {
  }

  lemma SameChat(items: seq<Item>, randomIds: seq<nat>, n: nat, batches: seq<Batch>, open: Batch)
    requires n < |items| == |randomIds| && Accumulating(items, randomIds, n, batches, open)
    requires items[n].peer == open.from
    ensures Accumulating(items, randomIds, n + 1, batches,
                         Batch(open.from, open.ids + [items[n].id], open.randomIds + [randomIds[n]]))
  {
    OneMoreItem(items, n);
    OneMoreRandomId(randomIds, n);
    assert Repeated(open.from, |open.ids| + 1) == Repeated(open.from, |open.ids|) + [open.from];
  }

  lemma OtherChat(items: seq<Item>, randomIds: seq<nat>, n: nat, batches: seq<Batch>, open: Batch)
    requires n < |items| == |randomIds| && Accumulating(items, randomIds, n, batches, open)
    requires items[n].peer != open.from && open.ids != []
    ensures Accumulating(items, randomIds, n + 1, batches + [open], Batch(items[n].peer, [items[n].id], [randomIds[n]]))
  {
    OneMoreItem(items, n);
    OneMoreRandomId(randomIds, n);
    AppendBatch(batches, open);
    assert Repeated(items[n].peer, 1) == [items[n].peer];
  }

  /** One item: what was accumulated goes out first if the item is from another chat. */
  ghost predicate Accumulated(batches: seq<Batch>, open: Batch, item: Item, randomId: nat,
                              batches': seq<Batch>, open': Batch)
  {
    if item.peer == open.from then
      batches' == batches && open' == Batch(open.from, open.ids + [item.id], open.randomIds + [randomId])
    else
      batches' == batches + [open] && open' == Batch(item.peer, [item.id], [randomId])
  }

  /** The loop after n items. */
  ghost predicate Going(items: seq<Item>, randomIds: seq<nat>, n: nat, batches: seq<Batch>, open: Batch)
    requires n <= |items| == |randomIds|
  {
    && Accumulating(items, randomIds, n, batches, open)
    && if n == 0 then |items| > 0 ==> open.from == items[0].peer else open.ids != []
  }

  lemma GoingMore(items: seq<Item>, randomIds: seq<nat>, n: nat, batches: seq<Batch>, open: Batch,
                  batches': seq<Batch>, open': Batch)
    requires n < |items| == |randomIds| && Going(items, randomIds, n, batches, open)
    requires Accumulated(batches, open, items[n], randomIds[n], batches', open')
    ensures Going(items, randomIds, n + 1, batches', open')
  {
    if items[n].peer == open.from {
      SameChat(items, randomIds, n, batches, open);
    } else {
      OtherChat(items, randomIds, n, batches, open);
    }
  }

  lemma NothingYet(items: seq<Item>, randomIds: seq<nat>, from: nat)
    requires |items| == |randomIds| > 0 && from == items[0].peer
    ensures Going(items, randomIds, 0, [], Batch(from, [], []))
  {
    assert Repeated(from, 0) == [];
  }

  lemma Completed(items: seq<Item>, randomIds: seq<nat>, batches: seq<Batch>, open: Batch)
    requires |items| == |randomIds| > 0 && Going(items, randomIds, |items|, batches, open)
    ensures RunsOf(items, randomIds, batches + [open])
  {
    assert items[..|items|] == items && randomIds[..|items|] == randomIds;
    AppendBatch(batches, open);
    MaximalMore(batches, open);
  }

  lemma MaximalMore(batches: seq<Batch>, open: Batch)
    requires Maximal(batches) && 0 < |open.ids| == |open.randomIds|
    requires batches != [] ==> batches[|batches| - 1].from != open.from
    ensures Maximal(batches + [open])
  {
  }

  method Accumulate(forwardFrom: nat, ids: seq<int>, randomIds: seq<nat>, batches: seq<Batch>, item: Item,
                    randomId: nat)
    returns (forwardFrom': nat, ids': seq<int>, randomIds': seq<nat>, batches': seq<Batch>)
    ensures Accumulated(batches, Batch(forwardFrom, ids, randomIds), item, randomId,
                        batches', Batch(forwardFrom', ids', randomIds'))
  {
    forwardFrom', ids', randomIds', batches' := forwardFrom, ids, randomIds, batches;
    var newFrom := item.peer;
    if forwardFrom != newFrom {
      batches' := batches + [Batch(forwardFrom, ids, randomIds)];
      ids', randomIds' := [], [];
      forwardFrom' := newFrom;
    }
    ids', randomIds' := ids' + [item.id], randomIds' + [randomId];
  }

  /** forwardMessages: what is sent. */
  method ForwardMessages(items: seq<Item>, randomIds: seq<nat>) returns (batches: seq<Batch>)
    requires |items| == |randomIds| > 0
    ensures RunsOf(items, randomIds, batches)
  {
    var forwardFrom := items[0].peer;
    var ids: seq<int>, accumulated: seq<nat>;
    ids, accumulated, batches := [], [], [];
    NothingYet(items, randomIds, forwardFrom);
    for n := 0 to |items|
      invariant Going(items, randomIds, n, batches, Batch(forwardFrom, ids, accumulated))
    {
      ghost var batches0, open := batches, Batch(forwardFrom, ids, accumulated);
      forwardFrom, ids, accumulated, batches :=
        Accumulate(forwardFrom, ids, accumulated, batches, items[n], randomIds[n]);
      GoingMore(items, randomIds, n, batches0, open, batches, Batch(forwardFrom, ids, accumulated));
    }
    Completed(items, randomIds, batches, Batch(forwardFrom, ids, accumulated));
    batches := batches + [Batch(forwardFrom, ids, accumulated)];
  }

  // There is only one way to divide the items.

  lemma {:induction false} Lengths(batches: seq<Batch>)
    requires Maximal(batches)
    ensures |AllIds(batches)| == |AllPeers(batches)| == |AllRandomIds(batches)| >= |batches|
  {
    if batches != [] {
      Lengths(batches[..|batches| - 1]);
    }
  }

  /** The run the chats end with begins at n. */
  predicate BeginsAt(peers: seq<nat>, from: nat, n: int) {
    && 0 <= n < |peers| && (forall k :: n <= k < |peers| ==> peers[k] == from)
    && (n > 0 ==> peers[n - 1] != from)
  }

  lemma LastBegins(a: seq<Batch>)
    requires Maximal(a) && a != []
    ensures BeginsAt(AllPeers(a), a[|a| - 1].from, |AllPeers(a)| - |a[|a| - 1].ids|)
  {
    if |a| > 1 {
      var rest := a[..|a| - 1];
      var last := rest[|rest| - 1];
      assert AllPeers(rest) == AllPeers(rest[..|rest| - 1]) + Repeated(last.from, |last.ids|);
      assert AllPeers(rest)[|AllPeers(rest)| - 1] == last.from;
    }
  }

  lemma OneBeginning(peers: seq<nat>, from: nat, other: nat, m: int, n: int)
    requires BeginsAt(peers, from, m) && BeginsAt(peers, other, n)
    ensures from == other && m == n
  {
    assert peers[|peers| - 1] == from && peers[|peers| - 1] == other;
  }

  lemma LastRun(a: seq<Batch>, b: seq<Batch>)
    requires Maximal(a) && Maximal(b) && a != [] && b != [] && AllPeers(a) == AllPeers(b)
    ensures a[|a| - 1].from == b[|b| - 1].from && |a[|a| - 1].ids| == |b[|b| - 1].ids|
  {
    LastBegins(a);
    LastBegins(b);
    OneBeginning(AllPeers(a), a[|a| - 1].from, b[|b| - 1].from,
                 |AllPeers(a)| - |a[|a| - 1].ids|, |AllPeers(b)| - |b[|b| - 1].ids|);
  }

  lemma {:induction false} OneDivision(a: seq<Batch>, b: seq<Batch>)
    requires Maximal(a) && Maximal(b)
    requires AllIds(a) == AllIds(b) && AllPeers(a) == AllPeers(b) && AllRandomIds(a) == AllRandomIds(b)
    ensures a == b
    decreases |a|
  {
    Lengths(a);
    Lengths(b);
    if a != [] && b != [] {
      LastRun(a, b);
      var x, y := a[|a| - 1], b[|b| - 1];
      Divided(AllIds(a[..|a| - 1]), x.ids, AllIds(b[..|b| - 1]), y.ids);
      Divided(AllRandomIds(a[..|a| - 1]), x.randomIds, AllRandomIds(b[..|b| - 1]), y.randomIds);
      Divided(AllPeers(a[..|a| - 1]), Repeated(x.from, |x.ids|), AllPeers(b[..|b| - 1]), Repeated(y.from, |y.ids|));
      OneDivision(a[..|a| - 1], b[..|b| - 1]);
      assert a == a[..|a| - 1] + [x] && b == b[..|b| - 1] + [y];
    }
  }

  /** So the runs are determined by the items. */
  lemma OneWay(items: seq<Item>, randomIds: seq<nat>, a: seq<Batch>, b: seq<Batch>)
    requires RunsOf(items, randomIds, a) && RunsOf(items, randomIds, b)
    ensures a == b
  {
    OneDivision(a, b);
  }

  lemma Divided<T>(a: seq<T>, x: seq<T>, b: seq<T>, y: seq<T>)
    requires a + x == b + y && |x| == |y|
    ensures a == b && x == y
  {
    assert a == (a + x)[..|a|] && b == (b + y)[..|b|];
    assert x == (a + x)[|a|..] && y == (b + y)[|b|..];
  }

  // The shared callback.

  datatype Status = Waiting | Succeeded | Failed

  function Count(statuses: seq<Status>, s: Status): nat {
    if statuses == [] then 0
    else Count(statuses[..|statuses| - 1], s) + if statuses[|statuses| - 1] == s then 1 else 0
  }

  lemma {:induction false} CountChanged(statuses: seq<Status>, i: nat, s: Status)
    requires i < |statuses| && statuses[i] == Waiting && s != Waiting
    ensures var changed := statuses[i := s];
            Count(changed, Succeeded) == Count(statuses, Succeeded) + if s == Succeeded then 1 else 0
  {
    var last := |statuses| - 1;
    if i < last {
      assert statuses[i := s][..last] == statuses[..last][i := s];
      CountChanged(statuses[..last], i, s);
    } else {
      assert statuses[i := s][..last] == statuses[..last];
    }
  }

  lemma {:induction false} CountAll(statuses: seq<Status>)
    ensures Count(statuses, Succeeded) <= |statuses|
    ensures Count(statuses, Succeeded) == |statuses| <==> forall i :: 0 <= i < |statuses| ==> statuses[i] == Succeeded
  {
    if statuses != [] {
      CountAll(statuses[..|statuses| - 1]);
    }
  }

  class Shared {
    var requestsLeft: int
    var called: nat
    ghost var statuses: seq<Status>

    /** The callback has been called once all batches have succeeded, once, and not before. */
    ghost predicate Valid()
      reads this
    {
      && requestsLeft == |statuses| - Count(statuses, Succeeded)
      && called == if statuses != [] && forall i :: 0 <= i < |statuses| ==> statuses[i] == Succeeded then 1 else 0
    }

    constructor ()
      ensures requestsLeft == called == 0 && statuses == [] && Valid()
    {
      requestsLeft, called, statuses := 0, 0, [];
    }

    /** A batch goes out, before any answer. */
    method Sent()
      requires Valid() && forall i :: 0 <= i < |statuses| ==> statuses[i] == Waiting
      modifies this
      ensures Valid() && statuses == old(statuses) + [Waiting]
    {
      CountAll(statuses);
      assert (statuses + [Waiting])[..|statuses|] == statuses;
      statuses := statuses + [Waiting];
      requestsLeft := requestsLeft + 1;
    }

    method Done(ghost i: nat)
      requires Valid() && i < |statuses| && statuses[i] == Waiting
      modifies this
      ensures Valid() && statuses == old(statuses)[i := Succeeded]
      ensures called == old(called) + if forall j :: 0 <= j < |statuses| ==> statuses[j] == Succeeded then 1 else 0
    {
      CountChanged(statuses, i, Succeeded);
      statuses := statuses[i := Succeeded];
      CountAll(statuses);
      requestsLeft := requestsLeft - 1;
      if requestsLeft == 0 {
        called := called + 1;
      }
    }

    method Fail(ghost i: nat)
      requires Valid() && i < |statuses| && statuses[i] == Waiting
      modifies this
      ensures Valid() && statuses == old(statuses)[i := Failed] && called == old(called)
    {
      CountChanged(statuses, i, Failed);
      statuses := statuses[i := Failed];
      assert statuses[i] == Failed;
    }
  }

  datatype Answer = Ok(batch: nat) | Error(batch: nat)

  function StatusOf(answer: Answer): Status {
    if answer.Ok? then Succeeded else Failed
  }

  /** The first answer to a batch, the only one that comes. */
  function FirstAnswer(answers: seq<Answer>, batch: nat): Status {
    if answers == [] then Waiting
    else if answers[0].batch == batch then StatusOf(answers[0])
    else FirstAnswer(answers[1..], batch)
  }

  lemma {:induction false} FirstAnswerMore(answers: seq<Answer>, k: nat, batch: nat)
    requires k < |answers|
    ensures FirstAnswer(answers[..k + 1], batch)
         == var before := FirstAnswer(answers[..k], batch);
            if before == Waiting && answers[k].batch == batch then StatusOf(answers[k]) else before
  {
    if k > 0 {
      assert answers[..k][1..] == answers[1..][..k - 1] && answers[..k + 1][1..] == answers[1..][..k];
      FirstAnswerMore(answers[1..], k - 1, batch);
    } else {
      assert answers[..1][1..] == [];
    }
  }

  /** None of the first k answers is to the batch. */
  ghost predicate Unanswered(answers: seq<Answer>, k: nat, batch: nat)
    requires k <= |answers|
  {
    forall j :: 0 <= j < k ==> answers[j].batch != batch
  }

  /** The first answer to the batch is a success. */
  ghost predicate FirstSucceeds(answers: seq<Answer>, batch: nat) {
    exists k :: 0 <= k < |answers| && answers[k] == Ok(batch) && Unanswered(answers, k, batch)
  }

  lemma {:induction false} FirstAnswerMeans(answers: seq<Answer>, batch: nat)
    ensures FirstAnswer(answers, batch) == Succeeded <==> FirstSucceeds(answers, batch)
    ensures FirstAnswer(answers, batch) == Waiting <==> Unanswered(answers, |answers|, batch)
  {
    if answers != [] {
      FirstAnswerMeans(answers[1..], batch);
      SucceedsLater(answers, batch);
      UnansweredLater(answers, batch);
    }
  }

  lemma UnansweredLater(answers: seq<Answer>, batch: nat)
    requires answers != []
    ensures Unanswered(answers, |answers|, batch) <==>
            answers[0].batch != batch && Unanswered(answers[1..], |answers| - 1, batch)
  {
    var rest := answers[1..];
    assert forall j :: 0 < j < |answers| ==> answers[j] == rest[j - 1];
  }

  lemma SucceedsLater(answers: seq<Answer>, batch: nat)
    requires answers != []
    ensures FirstSucceeds(answers, batch) <==>
            if answers[0].batch == batch then answers[0].Ok? else FirstSucceeds(answers[1..], batch)
  {
    var rest := answers[1..];
    if answers[0] == Ok(batch) {
      assert Unanswered(answers, 0, batch);
    }
    if answers[0].batch != batch && FirstSucceeds(rest, batch) {
      var k :| 0 <= k < |rest| && rest[k] == Ok(batch) && Unanswered(rest, k, batch);
      assert answers[k + 1] == Ok(batch) && Unanswered(answers, k + 1, batch);
    }
    if answers[0].batch != batch && FirstSucceeds(answers, batch) {
      var k :| 0 <= k < |answers| && answers[k] == Ok(batch) && Unanswered(answers, k, batch);
      assert rest[k - 1] == Ok(batch) && Unanswered(rest, k - 1, batch);
    }
  }

  /** The batches that are not answered yet. */
  ghost predicate Open(open: seq<bool>, statuses: seq<Status>) {
    |open| == |statuses| && forall i :: 0 <= i < |open| ==> (open[i] <==> statuses[i] == Waiting)
  }

  method TakeAnswer(shared: Shared, open: seq<bool>, answer: Answer) returns (open': seq<bool>)
    requires shared.Valid() && Open(open, shared.statuses)
    modifies shared
    ensures shared.Valid() && Open(open', shared.statuses) && |shared.statuses| == |old(shared.statuses)|
    ensures forall i: nat :: i < |shared.statuses| ==>
              shared.statuses[i] == if old(shared.statuses)[i] == Waiting && answer.batch == i then StatusOf(answer)
                                    else old(shared.statuses)[i]
  {
    open' := open;
    var i := answer.batch;
    if i < |open| && open[i] {
      open' := open[i := false];
      if answer.Ok? {
        shared.Done(i);
      } else {
        shared.Fail(i);
      }
    }
  }

  ghost predicate FirstAnswered(statuses: seq<Status>, answers: seq<Answer>) {
    forall i: nat :: i < |statuses| ==> statuses[i] == FirstAnswer(answers, i)
  }

  lemma FirstAnsweredMore(statuses: seq<Status>, answers: seq<Answer>, k: nat, statuses': seq<Status>)
    requires k < |answers| && FirstAnswered(statuses, answers[..k]) && |statuses'| == |statuses|
    requires forall i: nat :: i < |statuses| ==>
               statuses'[i] == if statuses[i] == Waiting && answers[k].batch == i then StatusOf(answers[k])
                               else statuses[i]
    ensures FirstAnswered(statuses', answers[..k + 1])
  {
    forall i: nat | i < |statuses| ensures statuses'[i] == FirstAnswer(answers[..k + 1], i) {
      FirstAnswerMore(answers, k, i);
    }
  }

  method TakeAnswers(shared: Shared, count: nat, answers: seq<Answer>)
    requires shared.Valid() && count == |shared.statuses|
    requires forall i: nat :: i < |shared.statuses| ==> shared.statuses[i] == Waiting
    modifies shared
    ensures shared.Valid() && |shared.statuses| == |old(shared.statuses)| && FirstAnswered(shared.statuses, answers)
  {
    var open := seq(count, _ => true);
    for k := 0 to |answers|
      invariant shared.Valid() && |shared.statuses| == |old(shared.statuses)| && Open(open, shared.statuses)
      invariant FirstAnswered(shared.statuses, answers[..k])
    {
      ghost var before := shared.statuses;
      open := TakeAnswer(shared, open, answers[k]);
      FirstAnsweredMore(before, answers, k, shared.statuses);
    }
    assert answers[..|answers|] == answers;
  }

  /**
   * All batches of one call go out; then answers come, in any order, the first one for each batch.
   * The callback has been called if and only if every batch's answer is a success, and then once.
   */
  method Run(items: seq<Item>, randomIds: seq<nat>, answers: seq<Answer>)
    returns (batches: seq<Batch>, shared: Shared)
    requires |items| == |randomIds| > 0
    ensures fresh(shared) && shared.Valid() && RunsOf(items, randomIds, batches) && |batches| > 0
    ensures |shared.statuses| == |batches|
    ensures FirstAnswered(shared.statuses, answers)
    ensures shared.called <= 1
    ensures shared.called == 1 <==> forall i: nat :: i < |batches| ==> FirstSucceeds(answers, i)
  {
    batches := ForwardMessages(items, randomIds);
    shared := new Shared();
    for n := 0 to |batches|
      invariant fresh(shared) && shared.Valid() && |shared.statuses| == n
      invariant forall i: nat :: i < n ==> shared.statuses[i] == Waiting
    {
      shared.Sent();
    }
    TakeAnswers(shared, |batches|, answers);
    forall i: nat | i < |batches| ensures FirstAnswer(answers, i) == Succeeded <==> FirstSucceeds(answers, i) {
      FirstAnswerMeans(answers, i);
    }
  }
}
