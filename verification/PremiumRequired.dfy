/** Asking, for many users, whether writing to them takes Premium: one batch at a time. */
module PremiumRequired {
  import opened Ascending

  const PER_REQUEST := 100

  /** What is known of a user. The other flags have nothing to do with the answer. */
  datatype Flags = Flags(meRequiresPremium: bool, known: bool, others: bv64)

  /** The users from the front, in ascending order, and the rest. */
  ghost predicate Split(s: set<int>, front: seq<int>, rest: set<int>) {
    && Increasing(front) && (forall u :: u in front ==> u in s && u !in rest) && rest <= s
    && (forall u :: u in s ==> u in front || u in rest)
    && (forall u, later :: u in front && later in rest ==> u < later)
  }

  lemma {:induction false} SplitSize(s: set<int>, front: seq<int>, rest: set<int>)
    requires Split(s, front, rest)
    ensures |s| == |front| + |rest|
    decreases |front|
  {
    if front == [] {
      assert forall u :: u in s <==> u in rest;
      assert s == rest;
    } else {
      var last := |front| - 1;
      assert forall u :: u in front <==> u in front[..last] || u == front[last];
      SplitSize(s, front[..last], rest + {front[last]});
    }
  }

  method TakeFront(s: set<int>, limit: nat) returns (front: seq<int>, rest: set<int>)
    ensures Split(s, front, rest) && |front| <= limit && (rest != {} ==> |front| == limit)
  {
    front, rest := [], s;
    while |rest| > 0 && |front| < limit
      invariant Split(s, front, rest) && |front| <= limit
      decreases |rest|
    {
      var user := Least(rest);
      IncreasingMore(front, user);
      front, rest := front + [user], rest - {user};
    }
  }

  /** The first `done` users of the order have their answers, each at its own place of the list; no others changed. */
  ghost predicate Answered(was: map<int, Flags>, flags: map<int, Flags>, order: seq<int>, list: seq<bool>, done: nat)
    requires done <= |order|
  {
    && flags.Keys == was.Keys
    && (forall i :: 0 <= i < done ==>
          order[i] in was && flags[order[i]] == Flags(i < |list| && list[i], true, was[order[i]].others))
    && (forall u :: u in was && u !in order[..done] ==> flags[u] == was[u])
  }

  lemma AnsweredMore(was: map<int, Flags>, flags: map<int, Flags>, order: seq<int>, list: seq<bool>, done: nat,
                     user: int, flags': map<int, Flags>)
    requires done < |order| && Answered(was, flags, order, list, done)
    requires Increasing(order) && user == order[done] && user in flags
    requires flags' == flags[user := Flags(done < |list| && list[done], true, flags[user].others)]
    ensures Answered(was, flags', order, list, done + 1)
  {
    assert order[..done + 1] == order[..done] + [user];
    assert user !in order[..done];
  }

  ghost predicate Remaining(order: seq<int>, done: nat, left: set<int>)
    requires done <= |order|
  {
    forall u :: u in left <==> u in order[done..]
  }

  lemma NobodyRemains(order: seq<int>, done: nat, left: set<int>)
    requires done <= |order| && Remaining(order, done, left)
    ensures done < |order| ==> order[done] in left
  {
    if done < |order| {
      assert order[done..][0] == order[done];
      assert order[done] in order[done..];
    }
  }

  lemma EverybodyRemains(order: seq<int>, users: set<int>)
    requires forall u :: u in order <==> u in users
    ensures Remaining(order, 0, users)
  {
    assert order[0..] == order;
  }

  /** The least of the users left is the next of the order, and not among those after it. */
  lemma NextInLine(order: seq<int>, done: nat, left: set<int>, user: int)
    requires Increasing(order) && done <= |order| && Remaining(order, done, left)
    requires user in left && forall u :: u in left ==> user <= u
    ensures done < |order| && order[done] == user && Remaining(order, done + 1, left - {user})
  {
    var k :| done <= k < |order| && order[k] == user;
    assert order[done] in order[done..];
    assert k == done;
    assert order[done..] == [user] + order[done + 1..];
  }

  class Premium {
    var waiting: set<int>
    var requested: set<int>
    var scheduled: bool
    var flags: map<int, Flags>
    ghost var inFlight: seq<seq<int>>

    /**
     * At most one batch is in flight, and it asks for the requested users in their order; users
     * wait only while a batch is scheduled or in flight.
     */
    ghost predicate Valid()
      reads this
    {
      && (if requested == {} then inFlight == []
          else |inFlight| == 1 && Increasing(inFlight[0]) && forall u :: u in inFlight[0] <==> u in requested)
      && (waiting != {} ==> scheduled || requested != {})
      && waiting + requested <= flags.Keys
    }

    constructor (flags: map<int, Flags>)
      ensures Valid() && waiting == requested == {} && !scheduled && this.flags == flags
    {
      waiting, requested, scheduled, inFlight := {}, {}, false, [];
      this.flags := flags;
    }

    method ResolvePremiumRequired(user: int)
      requires Valid() && user in flags
      modifies this`waiting, this`scheduled
      ensures Valid() && waiting == old(waiting) + {user}
      ensures scheduled == (old(scheduled) || requested == {})
    {
      waiting := waiting + {user};
      if !scheduled && requested == {} {
        scheduled := true;
      }
    }

    /** The scheduled call: the first users in line go out, unless a batch is still out. */
    method RequestPremiumRequiredSlice()
      requires Valid() && scheduled
      modifies this`waiting, this`requested, this`scheduled, this`inFlight
      ensures Valid() && !scheduled
      ensures if old(requested) != {} || old(waiting) == {}
              then waiting == old(waiting) && requested == old(requested) && inFlight == old(inFlight)
              else |inFlight| == 1 && Split(old(waiting), inFlight[0], waiting) && requested == set u | u in inFlight[0]
                   && |inFlight[0]| == if |old(waiting)| < PER_REQUEST then |old(waiting)| else PER_REQUEST
      ensures |waiting| + |requested| == |old(waiting)| + |old(requested)|
    {
      scheduled := false;
      if requested != {} || waiting == {} {
        return;
      }
      ghost var all := waiting;
      var users: seq<int>;
      users, waiting := TakeFront(waiting, PER_REQUEST);
      requested := set u | u in users;
      SplitSize(all, users, waiting);
      SplitSize(requested, users, {});
      assert users != [] && users[0] in requested;
      inFlight := [users];
    }

    /** An answer; a failure is an answer with an empty list. */
    method Finish(list: seq<bool>, ghost users: seq<int>)
      requires Valid() && inFlight == [users]
      modifies this`requested, this`scheduled, this`flags, this`inFlight
      ensures Valid() && requested == {} && scheduled == (old(scheduled) || waiting != {})
      ensures Answered(old(flags), flags, users, list, |users|)
      ensures |requested| < |old(requested)|
    {
      var left := requested;
      requested, inFlight := {}, [];
      SetFlags(left, list, users);
      if !scheduled && waiting != {} {
        scheduled := true;
      }
    }

    method SetFlag(user: int, list: seq<bool>, index: nat) returns (next: nat)
      requires user in flags
      modifies this`flags
      ensures flags == old(flags)[user := Flags(index < |list| && list[index], true, old(flags)[user].others)]
      ensures next == if index < |list| then index + 1 else index
    {
      next := index;
      var require := index < |list| && list[index];
      if index < |list| {
        next := index + 1;
      }
      flags := flags[user := Flags(require, true, flags[user].others)];
    }

    method SetFlags(users: set<int>, list: seq<bool>, ghost order: seq<int>)
      requires Increasing(order) && (forall u :: u in order <==> u in users) && users <= flags.Keys
      modifies this`flags
      ensures Answered(old(flags), flags, order, list, |order|)
    {
      ghost var was := flags;
      EverybodyRemains(order, users);
      var left, index, done := users, 0, 0;
      while |left| > 0
        invariant left <= users <= flags.Keys
        invariant 0 <= done <= |order| && Remaining(order, done, left)
        invariant index == if done < |list| then done else |list|
        invariant Answered(was, flags, order, list, done)
        decreases |left|
      {
        var user := Least(left);
        NextInLine(order, done, left, user);
        left := left - {user};
        ghost var before := flags;
        index := SetFlag(user, list, index);
        AnsweredMore(was, before, order, list, done, user, flags);
        done := done + 1;
      }
      assert left == {};
      NobodyRemains(order, done, left);
    }
  }

  // Whole runs.

  /** With no new calls every step but a futile one brings the end closer, and at the end nobody is left. */
  method Drain(p: Premium, answers: seq<seq<bool>>)
    requires p.Valid()
    modifies p
    ensures p.Valid() && p.waiting == p.requested == {} && !p.scheduled && p.inFlight == []
  {
    var next := 0;
    while p.scheduled || p.requested != {}
      invariant p.Valid() && next >= 0
      decreases |p.waiting| + |p.requested|, if p.scheduled then 1 else 0
    {
      if p.scheduled {
        p.RequestPremiumRequiredSlice();
      } else {
        p.Finish(if next < |answers| then answers[next] else [], p.inFlight[0]);
        next := next + 1;
      }
    }
  }

  datatype Event = Resolve(user: int) | Scheduled | Response(list: seq<bool>)

  /** The users asked for, of those that are known. */
  function Asked(events: seq<Event>, users: set<int>): set<int> {
    if events == [] then {}
    else
      var event := events[|events| - 1];
      Asked(events[..|events| - 1], users) + if event.Resolve? && event.user in users then {event.user} else {}
  }

  /** Whoever is asked for waits, is being asked about, or is known; and nobody else waits. */
  ghost predicate Served(p: Premium, asked: set<int>)
    reads p
  {
    && p.waiting + p.requested <= asked <= p.flags.Keys
    && forall u :: u in asked ==> u in p.waiting || u in p.requested || p.flags[u].known
  }

  method Handle(p: Premium, event: Event, ghost asked: set<int>)
    requires p.Valid() && Served(p, asked)
    modifies p
    ensures p.Valid() && p.flags.Keys == old(p.flags).Keys
    ensures Served(p, asked + if event.Resolve? && event.user in p.flags then {event.user} else {})
  {
    match event
    case Resolve(user) =>
      if user in p.flags {
        p.ResolvePremiumRequired(user);
      }
    case Scheduled =>
      if p.scheduled {
        HandleScheduled(p, asked);
      }
    case Response(list) =>
      if p.requested != {} {
        HandleResponse(p, list, asked);
      }
  }

  method HandleScheduled(p: Premium, ghost asked: set<int>)
    requires p.Valid() && Served(p, asked) && p.scheduled
    modifies p
    ensures p.Valid() && p.flags.Keys == old(p.flags).Keys && Served(p, asked)
  {
    p.RequestPremiumRequiredSlice();
  }

  method HandleResponse(p: Premium, list: seq<bool>, ghost asked: set<int>)
    requires p.Valid() && Served(p, asked) && p.requested != {}
    modifies p
    ensures p.Valid() && p.flags.Keys == old(p.flags).Keys && Served(p, asked)
  {
    ghost var users, flags := p.inFlight[0], p.flags;
    p.Finish(list, users);
    AnsweredKnown(flags, p.flags, users, list);
  }

  lemma AnsweredKnown(was: map<int, Flags>, flags: map<int, Flags>, order: seq<int>, list: seq<bool>)
    requires Answered(was, flags, order, list, |order|)
    ensures forall u :: u in was && u in order ==> flags[u].known
    ensures forall u :: u in was && u !in order ==> flags[u] == was[u]
  {
    assert order[..|order|] == order;
  }

  /** Any calls, scheduled calls and answers, in any order; one that cannot happen yet does not. */
  method Run(flags: map<int, Flags>, events: seq<Event>) returns (p: Premium)
    ensures fresh(p) && p.Valid() && Served(p, Asked(events, flags.Keys))
    ensures |p.inFlight| <= 1 && (p.waiting != {} ==> p.scheduled || p.inFlight != [])
  {
    p := new Premium(flags);
    for i := 0 to |events|
      invariant p.Valid() && fresh(p) && p.flags.Keys == flags.Keys && Served(p, Asked(events[..i], flags.Keys))
    {
      assert events[..i + 1][..i] == events[..i];
      Handle(p, events[i], Asked(events[..i], flags.Keys));
    }
    assert events[..|events|] == events;
  }
}
