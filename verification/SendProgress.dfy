/**
 * Telling others that one is typing, recording or uploading: not too often, and one request at a time for each
 * activity.
 */
module SendProgress {
  import opened Options

  datatype Type = Typing | Speaking | Other(code: nat)

  datatype Key = Key(history: nat, topMsgId: int, of: Type)

  const TYPING_INTERVAL := 5 * 1000
  const SPEAKING_INTERVAL := 3 * 1000

  function SendEach(key: Key): (s: int)
    ensures s > 0
  {
    if key.of == Speaking then SPEAKING_INTERVAL else TYPING_INTERVAL
  }

  // Times at which updates of one key were accepted, since the last accepted stop.

  predicate Spaced(times: seq<int>, interval: int) {
    forall i :: 0 <= i < |times| - 1 ==> times[i] + interval <= times[i + 1]
  }

  lemma {:induction false} SpacedApart(times: seq<int>, interval: int, i: nat, j: nat)
    requires Spaced(times, interval) && i <= j < |times|
    ensures times[i] + (j - i) * interval <= times[j]
    decreases j
  {
    if i < j {
      SpacedApart(times, interval, i, j - 1);
      assert (j - 1 - i) * interval + interval == (j - i) * interval;
    }
  }

  /** In a window of a given length there are no more of them than intervals fit in it, and one. */
  lemma InWindow(times: seq<int>, interval: int, from: int, length: nat, i: nat, j: nat)
    requires interval > 0 && Spaced(times, interval) && i <= j < |times|
    requires from <= times[i] && times[j] <= from + length
    ensures j - i + 1 <= length / interval + 1
  {
    SpacedApart(times, interval, i, j);
    AtMost(j - i, interval, length);
  }

  lemma AtMost(n: nat, interval: int, length: nat)
    requires interval > 0 && n * interval <= length
    ensures n <= length / interval
  {
    var q := length / interval;
    assert (q + 1) * interval == q * interval + interval;
    Positive(q + 1 - n, interval);
  }

  lemma Positive(d: int, interval: int)
    requires interval > 0 && d * interval > 0
    ensures d > 0
  {
  }

  /** What is remembered of a key is when it was last accepted. */
  ghost predicate Remembers(updated: map<Key, int>, streaks: map<Key, seq<int>>) {
    && updated.Keys == streaks.Keys
    && forall k :: k in streaks ==>
         |streaks[k]| > 0 && Spaced(streaks[k], SendEach(k))
           && updated[k] == streaks[k][|streaks[k]| - 1] + 2 * SendEach(k)
  }

  lemma RemembersStart(updated: map<Key, int>, streaks: map<Key, seq<int>>, key: Key, now: int,
                       updated': map<Key, int>, streaks': map<Key, seq<int>>)
    requires Remembers(updated, streaks)
    requires key in updated ==> updated[key] <= now + SendEach(key)
    requires updated' == updated[key := now + 2 * SendEach(key)]
    requires streaks' == streaks[key := Streak(streaks, key) + [now]]
    ensures Remembers(updated', streaks')
  {
    SpacedMore(Streak(streaks, key), SendEach(key), now);
  }

  /** The remembered time answers it. */
  lemma RemembersAccepts(updated: map<Key, int>, streaks: map<Key, seq<int>>, key: Key, doing: bool, now: int)
    requires Remembers(updated, streaks)
    ensures Accepts(Streak(streaks, key), SendEach(key), doing, now) <==>
            if doing then key !in updated || updated[key] <= now + SendEach(key)
            else key in updated && now < updated[key]
  {
  }

  lemma RemembersStop(updated: map<Key, int>, streaks: map<Key, seq<int>>, key: Key)
    requires Remembers(updated, streaks)
    ensures Remembers(updated - {key}, streaks - {key})
  {
  }

  function Streak(streaks: map<Key, seq<int>>, key: Key): seq<int> {
    if key in streaks then streaks[key] else []
  }

  /** A start is accepted an interval after the last one; a stop only before two intervals are over. */
  predicate Accepts(times: seq<int>, interval: int, doing: bool, now: int) {
    if doing then times == [] || times[|times| - 1] + interval <= now
    else times != [] && now < times[|times| - 1] + 2 * interval
  }

  /** An accepted start goes on with the streak of its key, an accepted stop ends it. */
  function Noted(streaks: map<Key, seq<int>>, key: Key, doing: bool, now: int): map<Key, seq<int>> {
    if !Accepts(Streak(streaks, key), SendEach(key), doing, now) then streaks
    else if doing then streaks[key := Streak(streaks, key) + [now]]
    else streaks - {key}
  }

  lemma SpacedMore(times: seq<int>, interval: int, now: int)
    requires Spaced(times, interval) && (times == [] || times[|times| - 1] + interval <= now)
    ensures Spaced(times + [now], interval)
  {
  }

  /**
   * A live request is the one kept track of for its key, and the other way around, but for
   * failures, which nobody hears of. The ids of two keys are never the same.
   */
  ghost predicate Tracked(requests: map<Key, nat>, live: map<nat, Key>, failed: map<nat, Key>, lastId: nat) {
    && (forall k :: k in requests ==>
          || (requests[k] in live && live[requests[k]] == k)
          || (requests[k] in failed && failed[requests[k]] == k))
    && (forall id :: id in live ==>
          id !in failed && 0 < id <= lastId && live[id] in requests && requests[live[id]] == id)
    && (forall id :: id in failed ==> 0 < id <= lastId)
  }

  lemma TrackedCancelled(requests: map<Key, nat>, live: map<nat, Key>, failed: map<nat, Key>, lastId: nat, key: Key)
    requires Tracked(requests, live, failed, lastId) && key in requests
    ensures Tracked(requests - {key}, live - {requests[key]}, failed, lastId)
  {
  }

  lemma TrackedSent(requests: map<Key, nat>, live: map<nat, Key>, failed: map<nat, Key>, lastId: nat, key: Key)
    requires Tracked(requests, live, failed, lastId) && key !in requests
    ensures Tracked(requests[key := lastId + 1], live[lastId + 1 := key], failed, lastId + 1)
  {
  }

  lemma TrackedFailed(requests: map<Key, nat>, live: map<nat, Key>, failed: map<nat, Key>, lastId: nat, id: nat)
    requires Tracked(requests, live, failed, lastId) && id in live
    ensures Tracked(requests, live - {id}, failed[id := live[id]], lastId)
  {
  }

  /** The keys whose request has failed and has not been cancelled since. */
  ghost predicate Lost(requests: map<Key, nat>, failed: map<nat, Key>, lost: set<Key>) {
    forall k :: k in lost <==> k in requests && requests[k] in failed
  }

  /** Live requests and those kept track of are the same exactly when no failed request is kept. */
  lemma LiveAreKept(requests: map<Key, nat>, live: map<nat, Key>, failed: map<nat, Key>, lastId: nat, lost: set<Key>)
    requires Tracked(requests, live, failed, lastId) && Lost(requests, failed, lost)
    ensures live.Keys == requests.Values <==> lost == {}
    ensures live.Keys <= requests.Values
    ensures forall a, b :: a in requests && b in requests && requests[a] == requests[b] ==> a == b
  {
    forall id | id in live ensures id in requests.Values {
      assert requests[live[id]] == id;
    }
    if lost == {} {
      forall id | id in requests.Values ensures id in live {
        var k :| k in requests && requests[k] == id;
        assert k !in lost;
      }
    } else {
      var k :| k in lost;
      assert requests[k] in requests.Values && requests[k] !in live;
    }
  }

  /** What is kept track of, and what is live; `lost` are the keys whose kept request has failed. */
  datatype State = State(requests: map<Key, nat>, live: map<nat, Key>, lastId: nat, stopTyping: Option<nat>,
                         lost: set<Key>)

  /** The key's request is cancelled. */
  function Cancelled(s: State, key: Key): State {
    if key !in s.requests then s
    else
      s.(requests := s.requests - {key}, live := s.live - {s.requests[key]}, lost := s.lost - {key})
  }

  /** Another is sent. */
  function Begun(s: State, key: Key): State {
    s.(requests := s.requests[key := s.lastId + 1], live := s.live[s.lastId + 1 := key], lastId := s.lastId + 1,
       stopTyping := if key.of == Typing then Some(key.history) else s.stopTyping)
  }

  function Restarted(s: State, key: Key, send: bool): State {
    if send then Begun(Cancelled(s, key), key) else Cancelled(s, key)
  }

  function TypingCancelled(s: State, history: nat): State {
    Cancelled(s.(stopTyping := None), Key(history, 0, Typing))
  }

  /** What is kept agrees with what is live and what has failed. */
  ghost predicate Sound(s: State, failed: map<nat, Key>) {
    Tracked(s.requests, s.live, failed, s.lastId) && Lost(s.requests, failed, s.lost)
  }

  /** Cancelling a key takes its request and leaves those of all other keys. */
  lemma CancelledOne(s: State, failed: map<nat, Key>, key: Key)
    requires Sound(s, failed)
    ensures var r := Cancelled(s, key);
            && key !in r.requests && (forall id :: id in r.live <==> id in s.live && s.live[id] != key)
            && (forall k :: k != key ==> (k in r.requests <==> k in s.requests))
            && (forall k :: k in r.requests ==> r.requests[k] == s.requests[k])
            && r.lost == s.lost - {key} && r.stopTyping == s.stopTyping && r.lastId == s.lastId
  {
  }

  /** The key has a new live request if one is sent, and otherwise none; all other keys keep theirs. */
  lemma RestartedOne(s: State, failed: map<nat, Key>, key: Key, send: bool)
    requires Sound(s, failed)
    ensures var r := Restarted(s, key, send);
            && (key in r.requests <==> send) && (forall k :: k != key ==> (k in r.requests <==> k in s.requests))
            && (forall k :: k != key && k in s.requests ==> r.requests[k] == s.requests[k])
            && (forall id :: id in r.live && r.live[id] != key <==> id in s.live && s.live[id] != key)
            && (forall id :: id in r.live && r.live[id] == key <==> send && id == r.requests[key])
            && (send ==> r.requests[key] > s.lastId && r.requests[key] <= r.lastId)
            && r.lost == s.lost - {key}
            && r.stopTyping == if send && key.of == Typing then Some(key.history) else s.stopTyping
  {
    CancelledOne(s, failed, key);
  }

  /** When typing stops, exactly its request outside of topics goes, and the timer. */
  lemma TypingStops(s: State, failed: map<nat, Key>, history: nat)
    requires Sound(s, failed)
    ensures var r, typing := TypingCancelled(s, history), Key(history, 0, Typing);
            && r.stopTyping == None && typing !in r.requests
            && (forall k :: k != typing ==> (k in r.requests <==> k in s.requests))
            && (forall id :: id in r.live <==> id in s.live && s.live[id] != typing)
  {
    CancelledOne(s.(stopTyping := None), failed, Key(history, 0, Typing));
  }

  class Manager {
    var requests: map<Key, nat>
    var updated: map<Key, int>
    var stopTyping: Option<nat>
    var live: map<nat, Key>
    var lastId: nat
    ghost var failed: map<nat, Key>
    ghost var lost: set<Key>
    ghost var streaks: map<Key, seq<int>>

    ghost predicate Valid()
      reads this
    {
      Remembers(updated, streaks) && Kept()
    }

    ghost predicate Kept()
      reads this
    {
      Tracked(requests, live, failed, lastId) && Lost(requests, failed, lost)
    }

    constructor ()
      ensures Valid() && Now() == State(map[], map[], 0, None, {}) && failed == map[] && streaks == map[]
    {
      requests, updated, stopTyping, live, lastId := map[], map[], None, map[], 0;
      failed, streaks, lost := map[], map[], {};
    }

    ghost function Now(): State
      reads this
    {
      State(requests, live, lastId, stopTyping, lost)
    }

    method Cancel(key: Key)
      requires Kept()
      modifies this`requests, this`live, this`lost
      ensures Kept() && Now() == Cancelled(old(Now()), key)
    {
      if key in requests {
        TrackedCancelled(requests, live, failed, lastId, key);
        live := live - {requests[key]};
        requests, lost := requests - {key}, lost - {key};
      }
    }

    /** Typing stops, outside of topics, and so does the timer. */
    method CancelTyping(history: nat)
      requires Kept()
      modifies this`requests, this`live, this`stopTyping, this`lost
      ensures Kept() && Now() == TypingCancelled(old(Now()), history)
    {
      stopTyping := None;
      Cancel(Key(history, 0, Typing));
    }

    /** Whether an update is sent: it is a start that comes late enough, or a stop of something recent. */
    method Updated(key: Key, doing: bool, now: int) returns (accepted: bool)
      requires Remembers(updated, streaks)
      modifies this`updated, this`streaks
      ensures Remembers(updated, streaks)
      ensures accepted <==> Accepts(Streak(old(streaks), key), SendEach(key), doing, now)
      ensures streaks == Noted(old(streaks), key, doing, now)
    {
      accepted := true;
      RemembersAccepts(updated, streaks, key, doing, now);
      if doing {
        var sendEach := SendEach(key);
        if key in updated && updated[key] > now + sendEach {
          return false;
        }
        ghost var updated0, streaks0 := updated, streaks;
        updated := updated[key := now + 2 * sendEach];
        streaks := streaks[key := Streak(streaks, key) + [now]];
        RemembersStart(updated0, streaks0, key, now, updated, streaks);
      } else {
        if key !in updated || updated[key] <= now {
          return false;
        }
        RemembersStop(updated, streaks, key);
        updated, streaks := updated - {key}, streaks - {key};
      }
    }

    /** One request, unless the other side is not there to see it. */
    method Send(key: Key, skip: bool)
      requires Kept() && key !in requests
      modifies this`requests, this`live, this`lastId, this`stopTyping
      ensures Kept() && Now() == if skip then old(Now()) else Begun(old(Now()), key)
    {
      if skip {
        return;
      }
      TrackedSent(requests, live, failed, lastId, key);
      lastId := lastId + 1;
      live, requests := live[lastId := key], requests[key := lastId];
      if key.of == Typing {
        stopTyping := Some(key.history);
      }
    }

    /** An update of an activity, or with a negative progress the end of it. */
    method Update(key: Key, progress: int, now: int, ignored: bool, skip: bool) returns (ghost accepted: bool)
      requires Valid()
      modifies this`requests, this`updated, this`stopTyping, this`live, this`lastId, this`streaks, this`lost
      ensures Valid()
      ensures accepted <==> !ignored && Accepts(Streak(old(streaks), key), SendEach(key), progress >= 0, now)
      ensures streaks == if ignored then old(streaks) else Noted(old(streaks), key, progress >= 0, now)
      ensures Now() == if accepted then Restarted(old(Now()), key, progress >= 0 && !skip) else old(Now())
    {
      accepted := false;
      if ignored {
        return;
      }
      var doing := progress >= 0;
      var send := Updated(key, doing, now);
      accepted := send;
      ghost var updated0, streaks0 := updated, streaks;
      if send {
        Restart(key, doing, skip);
      }
      assert Remembers(updated0, streaks0) && updated == updated0 && streaks == streaks0;
    }

    /** The request before is cancelled; a start sends another. */
    method Restart(key: Key, doing: bool, skip: bool)
      requires Kept()
      modifies this`requests, this`live, this`lastId, this`stopTyping, this`lost
      ensures Kept() && Now() == Restarted(old(Now()), key, doing && !skip)
    {
      Cancel(key);
      if doing {
        Send(key, skip);
      }
    }

    /** A request is done: it is no longer kept track of. */
    method Done(id: nat)
      requires Valid() && id in live
      modifies this`requests, this`live
      ensures Valid() && live == old(live) - {id} && requests == old(requests) - {old(live)[id]}
    {
      TrackedCancelled(requests, live, failed, lastId, live[id]);
      ghost var key := live[id];
      live := live - {id};
      var left := requests.Keys;
      while left != {}
        invariant left <= requests.Keys && key in left && key in requests && requests[key] == id
        invariant requests == old(requests)
        decreases |left|
      {
        var k :| k in left;
        if requests[k] == id {
          requests := requests - {k};
          break;
        }
        left := left - {k};
      }
    }

    method Fail(id: nat)
      requires Valid() && id in live
      modifies this`live, this`failed, this`lost
      ensures Valid() && live == old(live) - {id} && failed == old(failed)[id := old(live)[id]]
      ensures lost == old(lost) + {old(live)[id]}
    {
      lost := lost + {live[id]};
      TrackedFailed(requests, live, failed, lastId, id);
      failed := failed[id := live[id]];
      live := live - {id};
    }

    /** Five seconds after the last typing update. */
    method StopTyping()
      requires Valid() && stopTyping.Some?
      modifies this`requests, this`live, this`stopTyping, this`lost
      ensures Valid() && Now() == TypingCancelled(old(Now()), old(stopTyping).value)
    {
      CancelTyping(stopTyping.value);
    }

    /** However updates come, those accepted for a key in any window are few. */
    lemma FewInWindow(key: Key, from: int, length: nat, i: nat, j: nat)
      requires Valid() && i <= j < |Streak(streaks, key)|
      requires from <= Streak(streaks, key)[i] && Streak(streaks, key)[j] <= from + length
      ensures j - i + 1 <= length / (if key.of.Speaking? then 3000 else 5000) + 1
    {
      InWindow(streaks[key], SendEach(key), from, length, i, j);
    }
  }

  // Whole runs.

  datatype Event =
    | UpdateOf(key: Key, progress: int, now: int, ignored: bool, skip: bool)
    | DoneWith(id: nat)
    | Failed(id: nat)
    | Timer
    | CancelOf(key: Key)
    | CancelTypingOf(history: nat)

  /** The accepted starts of every key since its last accepted stop. */
  function StreaksAfter(events: seq<Event>): map<Key, seq<int>> {
    if events == [] then map[]
    else
      StreaksNext(StreaksAfter(events[..|events| - 1]), events[|events| - 1])
  }

  function StreaksNext(streaks: map<Key, seq<int>>, event: Event): map<Key, seq<int>> {
    if !event.UpdateOf? || event.ignored then streaks
    else Noted(streaks, event.key, event.progress >= 0, event.now)
  }

  /** What is kept track of after the events, and the streaks. */
  function After(events: seq<Event>): State {
    if events == [] then State(map[], map[], 0, None, {})
    else
      var before := events[..|events| - 1];
      Next(After(before), StreaksAfter(before), events[|events| - 1])
  }

  function Next(s: State, streaks: map<Key, seq<int>>, event: Event): State {
    match event
    case UpdateOf(key, progress, now, ignored, skip) =>
      if !ignored && Accepts(Streak(streaks, key), SendEach(key), progress >= 0, now)
      then Restarted(s, key, progress >= 0 && !skip)
      else s
    case DoneWith(id) => if id in s.live then Cancelled(s, s.live[id]) else s
    case Failed(id) => if id in s.live then s.(live := s.live - {id}, lost := s.lost + {s.live[id]}) else s
    case Timer => if s.stopTyping.Some? then TypingCancelled(s, s.stopTyping.value) else s
    case CancelOf(key) => Cancelled(s, key)
    case CancelTypingOf(history) => TypingCancelled(s, history)
  }

  /** Speaking is told of every three seconds at most, all else every five. */
  function Pause(key: Key): int {
    if key.of.Speaking? then 3000 else 5000
  }

  /** The time of the last accepted start since the last accepted stop. */
  function LastStart(events: seq<Event>, key: Key): Option<int> {
    var times := Streak(StreaksAfter(events), key);
    if times == [] then None else Some(times[|times| - 1])
  }

  /** An update that is heeded: a start when the last one is long enough ago, a stop when it is not too long ago. */
  predicate Heeded(last: Option<int>, key: Key, doing: bool, now: int) {
    if doing then last.None? || now >= last.value + Pause(key)
    else last.Some? && now < last.value + 2 * Pause(key)
  }

  /**
   * What one more event does to the starts of a key: a heeded start of it is one more, a heeded stop
   * ends them, and nothing else matters.
   */
  lemma StartsAfter(events: seq<Event>, event: Event, key: Key)
    ensures var times, more := Streak(StreaksAfter(events), key), Streak(StreaksAfter(events + [event]), key);
            if !HeededFor(events, event, key) then more == times
            else if event.progress >= 0 then more == times + [event.now] else more == []
  {
    assert (events + [event])[..|events|] == events;
  }

  /** The event is an update of the key, and heeded. */
  predicate HeededFor(events: seq<Event>, event: Event, key: Key) {
    && event.UpdateOf? && event.key == key && !event.ignored
    && Heeded(LastStart(events, key), key, event.progress >= 0, event.now)
  }

  /** The key an event is about. */
  function About(s: State, event: Event): Option<Key> {
    match event
    case UpdateOf(key, _, _, _, _) => Some(key)
    case DoneWith(id) => if id in s.live then Some(s.live[id]) else None
    case Failed(id) => if id in s.live then Some(s.live[id]) else None
    case Timer => if s.stopTyping.Some? then Some(Key(s.stopTyping.value, 0, Typing)) else None
    case CancelOf(key) => Some(key)
    case CancelTypingOf(history) => Some(Key(history, 0, Typing))
  }

  /** The key has a live request, or none. */
  ghost predicate Live(s: State, key: Key) {
    key in s.requests && s.requests[key] in s.live && s.live[s.requests[key]] == key
  }

  ghost predicate Gone(s: State, key: Key) {
    key !in s.requests && key !in s.lost && forall id :: id in s.live ==> s.live[id] != key
  }

  /** The key keeps its request, and whether this is live or has failed. */
  ghost predicate Keeps(s: State, r: State, k: Key) {
    && (k in r.requests <==> k in s.requests) && (k in s.requests ==> r.requests[k] == s.requests[k])
    && (k in s.lost <==> k in r.lost)
    && forall id :: id in r.live && r.live[id] == k <==> id in s.live && s.live[id] == k
  }

  lemma OthersKeepCancelled(s: State, failed: map<nat, Key>, key: Key, k: Key)
    requires Sound(s, failed) && k != key
    ensures Keeps(s, Cancelled(s, key), k)
  {
    CancelledOne(s, failed, key);
  }

  lemma OthersKeepStopped(s: State, failed: map<nat, Key>, history: nat, k: Key)
    requires Sound(s, failed) && k != Key(history, 0, Typing)
    ensures Keeps(s, TypingCancelled(s, history), k)
  {
    OthersKeepCancelled(s.(stopTyping := None), failed, Key(history, 0, Typing), k);
  }

  lemma OthersKeepRestarted(s: State, failed: map<nat, Key>, key: Key, send: bool, k: Key)
    requires Sound(s, failed) && k != key
    ensures Keeps(s, Restarted(s, key, send), k)
  {
    RestartedOne(s, failed, key, send);
  }

  /** All keys but the one an event is about keep theirs. */
  lemma OthersKeep(s: State, failed: map<nat, Key>, streaks: map<Key, seq<int>>, event: Event, k: Key)
    requires Sound(s, failed) && About(s, event) != Some(k)
    ensures Keeps(s, Next(s, streaks, event), k)
  {
    match event
    case UpdateOf(key, progress, _, _, skip) => OthersKeepRestarted(s, failed, key, progress >= 0 && !skip, k);
    case DoneWith(id) =>
      if id in s.live {
        OthersKeepCancelled(s, failed, s.live[id], k);
      }
    case Failed(id) =>
    case Timer =>
      if s.stopTyping.Some? {
        OthersKeepStopped(s, failed, s.stopTyping.value, k);
      }
    case CancelOf(key) => OthersKeepCancelled(s, failed, key, k);
    case CancelTypingOf(history) => OthersKeepStopped(s, failed, history, k);
  }

  /** A heeded start leaves its key a live request unless that is skipped, a heeded stop none. */
  lemma UpdateMeans(events: seq<Event>, event: Event, failed: map<nat, Key>)
    requires Sound(After(events), failed) && event.UpdateOf?
    ensures var s, r, key := After(events), After(events + [event]), event.key;
            if !HeededFor(events, event, key) then r == s
            else
              && (if event.progress >= 0 && !event.skip then Live(r, key) else Gone(r, key))
              && r.stopTyping == if event.progress >= 0 && !event.skip && key.of.Typing? then Some(key.history)
                                 else s.stopTyping
  {
    assert (events + [event])[..|events|] == events;
    CancelledOne(After(events), failed, event.key);
    RestartedOne(After(events), failed, event.key, true);
  }

  /** A failed request is kept, but no longer live. */
  lemma FailureMeans(events: seq<Event>, id: nat, failed: map<nat, Key>)
    requires Sound(After(events), failed) && id in After(events).live
    ensures var s, r := After(events), After(events + [Failed(id)]);
            && r.requests == s.requests && s.live[id] in r.lost && r.stopTyping == s.stopTyping
            && forall i :: i in r.live <==> i in s.live && i != id
  {
    assert (events + [Failed(id)])[..|events|] == events;
  }

  /** An answer, a cancellation and the timer leave the key they are about no request; the last two stop the timer. */
  lemma EndMeans(events: seq<Event>, event: Event, failed: map<nat, Key>)
    requires Sound(After(events), failed) && !event.UpdateOf? && !event.Failed? && About(After(events), event).Some?
    ensures var s, r, key := After(events), After(events + [event]), About(After(events), event).value;
            && Gone(r, key)
            && r.stopTyping == if event.DoneWith? || event.CancelOf? then s.stopTyping else None
  {
    assert (events + [event])[..|events|] == events;
    var s, key := After(events), About(After(events), event).value;
    CancelledOne(s, failed, key);
    CancelledOne(s.(stopTyping := None), failed, key);
  }

  method Handle(m: Manager, event: Event)
    requires m.Valid()
    modifies m
    ensures m.Valid() && m.streaks == StreaksNext(old(m.streaks), event)
    ensures m.Now() == Next(old(m.Now()), old(m.streaks), event)
  {
    match event
    case UpdateOf(key, progress, now, ignored, skip) =>
      var _ := m.Update(key, progress, now, ignored, skip);
    case DoneWith(id) =>
      if id in m.live {
        m.Done(id);
      }
    case Failed(id) =>
      if id in m.live {
        m.Fail(id);
      }
    case Timer =>
      if m.stopTyping.Some? {
        m.StopTyping();
      }
    case CancelOf(key) =>
      m.Cancel(key);
    case CancelTypingOf(history) =>
      m.CancelTyping(history);
  }

  /**
   * Any updates, cancellations, answers, failures and timer calls, in any order and at any times: starts
   * accepted for a key keep their distance; live requests are exactly those kept, one for each key, if
   * and only if no key has a failed request that nothing has replaced or cancelled since.
   */
  method Run(events: seq<Event>) returns (m: Manager)
    ensures fresh(m) && m.Valid() && m.streaks == StreaksAfter(events) && m.Now() == After(events)
    ensures forall key :: Spaced(Streak(m.streaks, key), Pause(key))
    ensures m.live.Keys == m.requests.Values <==> m.lost == {}
    ensures forall a, b :: a in m.requests && b in m.requests && m.requests[a] == m.requests[b] ==> a == b
  {
    m := new Manager();
    for i := 0 to |events|
      invariant m.Valid() && fresh(m) && m.streaks == StreaksAfter(events[..i]) && m.Now() == After(events[..i])
    {
      assert events[..i + 1][..i] == events[..i];
      Handle(m, events[i]);
    }
    assert events[..|events|] == events;
    LiveAreKept(m.requests, m.live, m.failed, m.lastId, m.lost);
  }

  method Started(key: Key, now: int) returns (m: Manager, id: nat)
    ensures fresh(m) && m.Valid() && m.requests == map[key := id] && m.live == map[id := key]
    ensures m.failed == map[] && m.lost == {} && m.streaks == map[key := [now]]
  {
    m := new Manager();
    id := m.lastId + 1;
    assert Streak(m.streaks, key) + [now] == [now];
    var _ := m.Update(key, 0, now, false, false);
    assert m.streaks == map[key := [now]] && m.requests == map[key := id] && m.live == map[id := key];
  }

  /** A start whose request fails is kept track of although it is not live. */
  method FailureIsKept(key: Key, now: int) returns (m: Manager, id: nat)
    ensures fresh(m) && m.Valid() && m.lost == {key} && m.live == map[] && m.requests == map[key := id]
    ensures m.live.Keys != m.requests.Values && m.failed != map[] && m.streaks == map[key := [now]]
  {
    m, id := Started(key, now);
    m.Fail(id);
    assert key in m.lost;
    LiveAreKept(m.requests, m.live, m.failed, m.lastId, m.lost);
  }

  /** The stop that follows forgets it. */
  method FailureIsForgotten(key: Key, now: int) returns (m: Manager)
    ensures m.Valid() && m.lost == {} && m.failed != map[] && m.live == map[] && m.requests == map[]
  {
    var id;
    m, id := FailureIsKept(key, now);
    assert Accepts(Streak(m.streaks, key), SendEach(key), false, now);
    var _ := m.Update(key, -1, now, false, false);
  }
}
