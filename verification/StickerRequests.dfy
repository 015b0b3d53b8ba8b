/** The requests that saving sticker sets sends: installs and uninstalls first, the order after the last of them. */
module StickerRequests {
  import opened Ascending
  import opened StickerSets

  /** A request in flight, with what its handler holds on to. */
  datatype Sent =
    | Disenable(of: StickersType, order: seq<nat>, change: Change)
    | Reorder(of: StickersType, order: seq<nat>)
    | Clear(attached: bool)
  {
    predicate Is(t: StickersType) {
      !Clear? && of == t
    }
  }

  type InFlight = map<nat, Sent>

  /** The last save of a type: its order, and how many reorder requests it has sent. */
  datatype Latest = Latest(order: seq<nat>, reorders: nat)

  /** The ids kept for a type are those of its requests in flight, and these belong to the last save. */
  ghost predicate Tracked(t: StickersType, disenable: set<nat>, reorder: nat, order: seq<nat>, inFlight: InFlight) {
    && (forall id :: id in disenable <==> id in inFlight && inFlight[id].Is(t) && inFlight[id].Disenable?)
    && (forall id :: id in inFlight && inFlight[id].Is(t) && inFlight[id].Reorder? ==> id == reorder)
    && (reorder != 0 ==> reorder in inFlight && inFlight[reorder].Is(t) && inFlight[reorder].Reorder?)
    && (forall id :: id in inFlight && inFlight[id].Is(t) ==> inFlight[id].order == order)
  }

  /** The order is sent once, when no install or uninstall is outstanding, and not before. */
  ghost predicate Settled(disenable: set<nat>, reorder: nat, latest: Latest) {
    && (disenable != {} ==> reorder == 0)
    && latest.reorders == if disenable == {} && |latest.order| >= 2 then 1 else 0
  }

  /** Nothing of the type came or went. */
  ghost predicate SameFor(t: StickersType, before: InFlight, after: InFlight) {
    && (forall id :: id in before && before[id].Is(t) ==> id in after && after[id] == before[id])
    && (forall id :: id in after && after[id].Is(t) ==> id in before && after[id] == before[id])
  }

  lemma TrackedSame(t: StickersType, disenable: set<nat>, reorder: nat, order: seq<nat>, before: InFlight,
                    after: InFlight)
    requires Tracked(t, disenable, reorder, order, before) && SameFor(t, before, after)
    ensures Tracked(t, disenable, reorder, order, after)
  {
  }

  // What one save sends.

  function SentFor(t: StickersType, order: seq<nat>, change: Change): Sent {
    if change.ClearRecent? then Clear(change.attached) else Disenable(t, order, change)
  }

  function Sending(inFlight: InFlight, lastId: nat, t: StickersType, order: seq<nat>, changes: seq<Change>): InFlight {
    if changes == [] then inFlight
    else
      var last := |changes| - 1;
      Sending(inFlight, lastId, t, order, changes[..last])[lastId + |changes| := SentFor(t, order, changes[last])]
  }

  /** The ids, in the order of the changes, of those that are not about recent stickers. */
  function DisenableIds(lastId: nat, changes: seq<Change>): set<nat> {
    if changes == [] then {}
    else
      var last := |changes| - 1;
      DisenableIds(lastId, changes[..last]) + if changes[last].ClearRecent? then {} else {lastId + |changes|}
  }

  lemma SendingMore(inFlight: InFlight, lastId: nat, t: StickersType, order: seq<nat>, changes: seq<Change>, i: nat)
    requires i < |changes|
    ensures Sending(inFlight, lastId, t, order, changes[..i + 1])
         == Sending(inFlight, lastId, t, order, changes[..i])[lastId + i + 1 := SentFor(t, order, changes[i])]
    ensures DisenableIds(lastId, changes[..i + 1])
         == if changes[i].ClearRecent? then DisenableIds(lastId, changes[..i])
            else DisenableIds(lastId, changes[..i]) + {lastId + i + 1}
  {
    assert changes[..i + 1][..i] == changes[..i];
  }

  ghost predicate Fresh(inFlight: InFlight, lastId: nat) {
    forall id :: id in inFlight ==> 0 < id <= lastId
  }

  /** One more request: those of other types, and those about recent stickers, do not touch this one's. */
  lemma TrackedSent(t: StickersType, disenable: set<nat>, order: seq<nat>, inFlight: InFlight, lastId: nat,
                    change: Change, sent: InFlight)
    requires Tracked(t, disenable, 0, order, inFlight) && Fresh(inFlight, lastId)
    requires sent == inFlight[lastId + 1 := SentFor(t, order, change)]
    ensures Fresh(sent, lastId + 1)
    ensures Tracked(t, disenable + if change.ClearRecent? then {} else {lastId + 1}, 0, order, sent)
    ensures forall other :: other != t ==> SameFor(other, inFlight, sent)
  {
  }

  lemma SameForBoth(t: StickersType, a: InFlight, b: InFlight, c: InFlight)
    requires SameFor(t, a, b) && SameFor(t, b, c)
    ensures SameFor(t, a, c)
  {
  }

  lemma {:induction false} TrackedSending(t: StickersType, order: seq<nat>, inFlight: InFlight, lastId: nat,
                                          changes: seq<Change>)
    requires Tracked(t, {}, 0, order, inFlight) && Fresh(inFlight, lastId)
    ensures Fresh(Sending(inFlight, lastId, t, order, changes), lastId + |changes|)
    ensures Tracked(t, DisenableIds(lastId, changes), 0, order, Sending(inFlight, lastId, t, order, changes))
    ensures forall other :: other != t ==> SameFor(other, inFlight, Sending(inFlight, lastId, t, order, changes))
  {
    if changes != [] {
      var last := |changes| - 1;
      var before := Sending(inFlight, lastId, t, order, changes[..last]);
      TrackedSending(t, order, inFlight, lastId, changes[..last]);
      var sent := Sending(inFlight, lastId, t, order, changes);
      TrackedSent(t, DisenableIds(lastId, changes[..last]), order, before, lastId + last, changes[last], sent);
      forall other | other != t ensures SameFor(other, inFlight, sent) {
        SameForBoth(other, inFlight, before, sent);
      }
    }
  }

  lemma {:induction false} SendingAt(inFlight: InFlight, lastId: nat, t: StickersType, order: seq<nat>,
                                     changes: seq<Change>, i: nat)
    requires i < |changes| && Fresh(inFlight, lastId)
    ensures var sent := Sending(inFlight, lastId, t, order, changes);
            lastId + i + 1 in sent && sent[lastId + i + 1] == SentFor(t, order, changes[i])
    decreases |changes|
  {
    if i < |changes| - 1 {
      SendingAt(inFlight, lastId, t, order, changes[..|changes| - 1], i);
    }
  }

  /** The request asks for the change, and its handler knows the type and the order. */
  predicate AsksFor(sent: Sent, t: StickersType, order: seq<nat>, change: Change) {
    match change
    case Uninstall(id) => sent.Disenable? && sent.of == t && sent.order == order && sent.change == Uninstall(id)
    case Install(id) => sent.Disenable? && sent.of == t && sent.order == order && sent.change == Install(id)
    case ClearRecent(attached) => sent == Clear(attached)
  }

  ghost predicate SentAs(inFlight: InFlight, id: nat, t: StickersType, order: seq<nat>, change: Change) {
    id in inFlight && AsksFor(inFlight[id], t, order, change)
  }

  ghost predicate AllSent(t: StickersType, order: seq<nat>, changes: seq<Change>, lastId: nat, inFlight: InFlight) {
    forall i :: 0 <= i < |changes| ==> SentAs(inFlight, lastId + i + 1, t, order, changes[i])
  }

  lemma SendingAll(inFlight: InFlight, lastId: nat, t: StickersType, order: seq<nat>, changes: seq<Change>,
                   sent: InFlight)
    requires Fresh(inFlight, lastId) && sent == Sending(inFlight, lastId, t, order, changes)
    ensures AllSent(t, order, changes, lastId, sent)
  {
    forall i | 0 <= i < |changes| ensures SentAs(sent, lastId + i + 1, t, order, changes[i]) {
      SendingAt(inFlight, lastId, t, order, changes, i);
    }
  }

  lemma AllSentAndOrder(t: StickersType, order: seq<nat>, changes: seq<Change>, lastId: nat, inFlight: InFlight,
                        id: nat, sent: Sent, inFlight': InFlight)
    requires AllSent(t, order, changes, lastId, inFlight) && id > lastId + |changes|
    requires inFlight' == inFlight || inFlight' == inFlight[id := sent]
    ensures AllSent(t, order, changes, lastId, inFlight')
  {
    forall i | 0 <= i < |changes| ensures SentAs(inFlight', lastId + i + 1, t, order, changes[i]) {
      assert SentAs(inFlight, lastId + i + 1, t, order, changes[i]);
    }
  }

  /** An install or uninstall of the type is in flight. */
  ghost predicate Travels(inFlight: InFlight, t: StickersType, change: Change) {
    exists r :: r in inFlight && inFlight[r].Disenable? && inFlight[r].of == t && inFlight[r].change == change
  }

  /** What is in flight for the type are the installs and uninstalls of the save, and no others. */
  ghost predicate JustSent(inFlight: InFlight, t: StickersType, changes: seq<Change>) {
    forall change: Change :: !change.ClearRecent? ==> (Travels(inFlight, t, change) <==> change in changes)
  }

  lemma {:induction false} SendingOnly(inFlight: InFlight, lastId: nat, t: StickersType, order: seq<nat>,
                                       changes: seq<Change>, r: nat)
    requires var sent := Sending(inFlight, lastId, t, order, changes);
             r in sent && sent[r].Disenable? && sent[r].of == t
    ensures var sent := Sending(inFlight, lastId, t, order, changes);
            (r in inFlight && inFlight[r] == sent[r]) || sent[r].change in changes
  {
    if changes != [] && r != lastId + |changes| {
      SendingOnly(inFlight, lastId, t, order, changes[..|changes| - 1], r);
    }
  }

  lemma SendingJust(inFlight: InFlight, lastId: nat, t: StickersType, order: seq<nat>, changes: seq<Change>,
                    sent: InFlight)
    requires forall r :: r in inFlight ==> !inFlight[r].Is(t)
    requires sent == Sending(inFlight, lastId, t, order, changes) && AllSent(t, order, changes, lastId, sent)
    ensures JustSent(sent, t, changes)
  {
    forall change: Change | !change.ClearRecent? ensures Travels(sent, t, change) <==> change in changes {
      if Travels(sent, t, change) {
        var r :| r in sent && sent[r].Disenable? && sent[r].of == t && sent[r].change == change;
        SendingOnly(inFlight, lastId, t, order, changes, r);
      }
      if change in changes {
        var i :| 0 <= i < |changes| && changes[i] == change;
        assert SentAs(sent, lastId + i + 1, t, order, change);
      }
    }
  }

  lemma JustSentAndOrder(inFlight: InFlight, t: StickersType, changes: seq<Change>, id: nat, order: seq<nat>,
                         inFlight': InFlight)
    requires JustSent(inFlight, t, changes) && id !in inFlight
    requires inFlight' == inFlight || inFlight' == inFlight[id := Reorder(t, order)]
    ensures JustSent(inFlight', t, changes)
  {
    forall change: Change | !change.ClearRecent? ensures Travels(inFlight', t, change) <==> change in changes {
      assert Travels(inFlight', t, change) <==> Travels(inFlight, t, change) by {
        if Travels(inFlight, t, change) {
          var r :| r in inFlight && inFlight[r].Disenable? && inFlight[r].of == t && inFlight[r].change == change;
          assert r in inFlight' && inFlight'[r] == inFlight[r];
        }
      }
    }
  }

  /** The requests of other types, and those about recent stickers but for the ones that are kept track of. */
  ghost function Surviving(inFlight: InFlight, t: StickersType, clears: set<nat>): InFlight {
    map id | id in inFlight && !inFlight[id].Is(t) && id !in clears :: inFlight[id]
  }

  /** Cancelling all of a type's requests, and those about recent stickers. */
  lemma TrackedCancelled(t: StickersType, disenable: set<nat>, reorder: nat, order: seq<nat>, inFlight: InFlight,
                         clears: set<nat>, order': seq<nat>, inFlight': InFlight)
    requires Tracked(t, disenable, reorder, order, inFlight) && 0 !in inFlight
    requires forall id :: id in clears && id in inFlight ==> inFlight[id].Clear?
    requires inFlight' == inFlight - (disenable + {reorder} + clears)
    ensures inFlight' == Surviving(inFlight, t, clears)
    ensures Tracked(t, {}, 0, order', inFlight')
    ensures forall other :: other != t ==> SameFor(other, inFlight, inFlight')
  {
  }

  /** An answered install or uninstall. */
  lemma TrackedAnswered(t: StickersType, disenable: set<nat>, reorder: nat, order: seq<nat>, inFlight: InFlight,
                        id: nat, inFlight': InFlight)
    requires Tracked(t, disenable, reorder, order, inFlight) && id in inFlight && inFlight' == inFlight - {id}
    requires 0 !in inFlight
    ensures inFlight[id].Disenable? && inFlight[id].Is(t) ==> Tracked(t, disenable - {id}, reorder, order, inFlight')
    ensures inFlight[id].Reorder? && inFlight[id].Is(t) ==> id == reorder && Tracked(t, disenable, 0, order, inFlight')
    ensures !inFlight[id].Is(t) ==> SameFor(t, inFlight, inFlight')
  {
  }

  lemma TrackedOrdered(t: StickersType, order: seq<nat>, inFlight: InFlight, lastId: nat, inFlight': InFlight)
    requires Tracked(t, {}, 0, order, inFlight) && Fresh(inFlight, lastId)
    requires inFlight' == inFlight[lastId + 1 := Reorder(t, order)]
    ensures Tracked(t, {}, lastId + 1, order, inFlight') && Fresh(inFlight', lastId + 1)
    ensures forall other :: other != t ==> SameFor(other, inFlight, inFlight')
  {
  }

  ghost predicate ClearTracked(clearRecent: nat, attached: bool, inFlight: InFlight) {
    clearRecent != 0 ==> clearRecent in inFlight && inFlight[clearRecent] == Clear(attached)
  }

  ghost predicate Fine(t: StickersType, disenable: map<StickersType, set<nat>>, reorder: map<StickersType, nat>,
                       latest: map<StickersType, Latest>, inFlight: InFlight)
  {
    && t in disenable && t in reorder && t in latest
    && Tracked(t, disenable[t], reorder[t], latest[t].order, inFlight)
    && Settled(disenable[t], reorder[t], latest[t])
  }

  ghost predicate OthersFine(t: StickersType, disenable: map<StickersType, set<nat>>, reorder: map<StickersType, nat>,
                             latest: map<StickersType, Latest>, inFlight: InFlight)
  {
    forall other :: other != t ==> Fine(other, disenable, reorder, latest, inFlight)
  }

  /** What happens for one type leaves the other two alone. */
  lemma OthersSame(t: StickersType, disenable: map<StickersType, set<nat>>, reorder: map<StickersType, nat>,
                   latest: map<StickersType, Latest>, inFlight: InFlight,
                   disenable': map<StickersType, set<nat>>, reorder': map<StickersType, nat>,
                   latest': map<StickersType, Latest>, inFlight': InFlight)
    requires OthersFine(t, disenable, reorder, latest, inFlight)
    requires forall other :: other != t ==> SameFor(other, inFlight, inFlight')
    requires forall other :: other != t && other in disenable ==>
               other in disenable' && disenable'[other] == disenable[other]
    requires forall other :: other != t && other in reorder ==> other in reorder' && reorder'[other] == reorder[other]
    requires forall other :: other != t && other in latest ==> other in latest' && latest'[other] == latest[other]
    ensures OthersFine(t, disenable', reorder', latest', inFlight')
  {
    forall other | other != t ensures Fine(other, disenable', reorder', latest', inFlight') {
      assert Fine(other, disenable, reorder, latest, inFlight);
      TrackedSame(other, disenable[other], reorder[other], latest[other].order, inFlight, inFlight');
    }
  }

  /** The order never travels beside an install, an uninstall or another order of its type. */
  ghost predicate ReorderAlone(inFlight: InFlight) {
    forall a, b :: a in inFlight && b in inFlight && inFlight[a].Reorder? ==> inFlight[b].Is(inFlight[a].of) ==> a == b
  }

  lemma CancelOne(was: InFlight, ids: set<nat>, left: set<nat>, id: nat)
    requires id in left && left <= ids
    ensures was - (ids - (left - {id})) == was - (ids - left) - {id}
  {
  }

  class Requests {
    var disenable: map<StickersType, set<nat>>
    var reorder: map<StickersType, nat>
    var clearRecent: nat
    var clearRecentAttached: nat
    var inFlight: InFlight
    var lastId: nat
    ghost var latest: map<StickersType, Latest>

    ghost predicate Valid()
      reads this
    {
      && Fresh(inFlight, lastId)
      && ClearTracked(clearRecent, false, inFlight) && ClearTracked(clearRecentAttached, true, inFlight)
      && forall t :: Fine(t, disenable, reorder, latest, inFlight)
    }

    constructor ()
      ensures Valid() && inFlight == map[] && forall t :: t in latest ==> latest[t].order == []
    {
      disenable := map[Stickers := {}, Masks := {}, Emoji := {}];
      reorder := map[Stickers := 0, Masks := 0, Emoji := 0];
      latest := map[Stickers := Latest([], 0), Masks := Latest([], 0), Emoji := Latest([], 0)];
      clearRecent, clearRecentAttached, inFlight, lastId := 0, 0, map[], 0;
      new;
      forall t: StickersType ensures Fine(t, disenable, reorder, latest, inFlight) {
        assert t == Stickers || t == Masks || t == Emoji;
      }
    }

    method Cancel(t: StickersType)
      requires t in disenable && t in reorder
      modifies this`disenable, this`reorder, this`clearRecent, this`clearRecentAttached, this`inFlight
      ensures disenable == old(disenable)[t := {}] && reorder == old(reorder)[t := 0]
      ensures clearRecent == clearRecentAttached == 0
      ensures inFlight == old(inFlight) - old(disenable[t] + {reorder[t]} + {clearRecent, clearRecentAttached})
    {
      var ids := disenable[t];
      disenable := disenable[t := {}];
      CancelAll(ids);
      inFlight := inFlight - {reorder[t]} - {clearRecent} - {clearRecentAttached};
      reorder, clearRecent, clearRecentAttached := reorder[t := 0], 0, 0;
    }

    method CancelAll(ids: set<nat>)
      modifies this`inFlight
      ensures inFlight == old(inFlight) - ids
    {
      ghost var was := inFlight;
      var left := ids;
      while |left| > 0
        invariant left <= ids && inFlight == was - (ids - left)
        decreases |left|
      {
        var id := Least(left);
        CancelOne(was, ids, left, id);
        left := left - {id};
        inFlight := inFlight - {id};
      }
      assert left == {} && ids - left == ids;
    }

    method SendOne(t: StickersType, order: seq<nat>, change: Change)
      requires t in disenable && Fresh(inFlight, lastId)
      requires ClearTracked(clearRecent, false, inFlight) && ClearTracked(clearRecentAttached, true, inFlight)
      modifies this`disenable, this`clearRecent, this`clearRecentAttached, this`inFlight, this`lastId
      ensures ClearTracked(clearRecent, false, inFlight) && ClearTracked(clearRecentAttached, true, inFlight)
      ensures lastId == old(lastId) + 1 && inFlight == old(inFlight)[lastId := SentFor(t, order, change)]
      ensures disenable == if change.ClearRecent? then old(disenable)
                           else old(disenable)[t := old(disenable)[t] + {lastId}]
      ensures clearRecent == (if change == ClearRecent(false) then lastId else old(clearRecent))
      ensures clearRecentAttached == (if change == ClearRecent(true) then lastId else old(clearRecentAttached))
    {
      lastId := lastId + 1;
      inFlight := inFlight[lastId := SentFor(t, order, change)];
      if !change.ClearRecent? {
        disenable := disenable[t := disenable[t] + {lastId}];
      } else if change.attached {
        clearRecentAttached := lastId;
      } else {
        clearRecent := lastId;
      }
    }

    method Send(t: StickersType, order: seq<nat>, changes: seq<Change>)
      requires t in disenable && disenable[t] == {} && Fresh(inFlight, lastId)
      requires clearRecent == clearRecentAttached == 0
      modifies this`disenable, this`clearRecent, this`clearRecentAttached, this`inFlight, this`lastId
      ensures ClearTracked(clearRecent, false, inFlight) && ClearTracked(clearRecentAttached, true, inFlight)
      ensures lastId == old(lastId) + |changes|
      ensures inFlight == Sending(old(inFlight), old(lastId), t, order, changes)
      ensures disenable == old(disenable)[t := DisenableIds(old(lastId), changes)]
    {
      ghost var was, first, kept := inFlight, lastId, disenable;
      for i := 0 to |changes|
        invariant ClearTracked(clearRecent, false, inFlight) && ClearTracked(clearRecentAttached, true, inFlight)
        invariant Fresh(inFlight, lastId)
        invariant lastId == first + i && inFlight == Sending(was, first, t, order, changes[..i])
        invariant t in disenable && disenable == kept[t := DisenableIds(first, changes[..i])]
      {
        SendingMore(was, first, t, order, changes, i);
        SendOne(t, order, changes[i]);
      }
      assert changes[..|changes|] == changes;
    }

    method SaveOrder(t: StickersType, order: seq<nat>)
      requires t in reorder && t in latest
      modifies this`reorder, this`inFlight, this`lastId, this`latest
      ensures if |order| < 2
              then reorder == old(reorder) && inFlight == old(inFlight) && lastId == old(lastId)
                && latest == old(latest)
              else lastId == old(lastId) + 1 && reorder == old(reorder)[t := lastId]
                   && inFlight == old(inFlight)[lastId := Reorder(t, order)]
                   && latest == old(latest)[t := Latest(old(latest)[t].order, old(latest)[t].reorders + 1)]
    {
      if |order| < 2 {
        return;
      }
      lastId := lastId + 1;
      reorder, inFlight := reorder[t := lastId], inFlight[lastId := Reorder(t, order)];
      latest := latest[t := Latest(latest[t].order, latest[t].reorders + 1)];
    }

    method Restart(t: StickersType, order: seq<nat>)
      requires Valid()
      modifies this`disenable, this`reorder, this`clearRecent, this`clearRecentAttached, this`inFlight, this`latest
      ensures Fresh(inFlight, lastId) && clearRecent == clearRecentAttached == 0
      ensures inFlight == Surviving(old(inFlight), t, {old(clearRecent), old(clearRecentAttached)})
      ensures t in disenable && disenable[t] == {} && t in reorder && reorder[t] == 0
      ensures latest == old(latest)[t := Latest(order, 0)]
      ensures Tracked(t, {}, 0, order, inFlight) && OthersFine(t, disenable, reorder, latest, inFlight)
    {
      ghost var disenable0, reorder0, latest0, inFlight0 := disenable, reorder, latest, inFlight;
      ghost var clears := {clearRecent, clearRecentAttached};
      assert Fine(t, disenable, reorder, latest, inFlight);
      Cancel(t);
      latest := latest[t := Latest(order, 0)];
      TrackedCancelled(t, disenable0[t], reorder0[t], latest0[t].order, inFlight0, clears, order, inFlight);
      OthersSame(t, disenable0, reorder0, latest0, inFlight0, disenable, reorder, latest, inFlight);
    }

    method SendAll(t: StickersType, order: seq<nat>, changes: seq<Change>)
      requires Fresh(inFlight, lastId) && clearRecent == clearRecentAttached == 0
      requires t in disenable && disenable[t] == {} && Tracked(t, {}, 0, order, inFlight)
      requires OthersFine(t, disenable, reorder, latest, inFlight)
      modifies this`disenable, this`clearRecent, this`clearRecentAttached, this`inFlight, this`lastId
      ensures Fresh(inFlight, lastId) && lastId == old(lastId) + |changes|
      ensures ClearTracked(clearRecent, false, inFlight) && ClearTracked(clearRecentAttached, true, inFlight)
      ensures inFlight == Sending(old(inFlight), old(lastId), t, order, changes)
      ensures AllSent(t, order, changes, old(lastId), inFlight) && JustSent(inFlight, t, changes)
      ensures disenable == old(disenable)[t := DisenableIds(old(lastId), changes)]
      ensures Tracked(t, disenable[t], 0, order, inFlight) && OthersFine(t, disenable, reorder, latest, inFlight)
    {
      ghost var disenable0, inFlight0, first := disenable, inFlight, lastId;
      Send(t, order, changes);
      TrackedSending(t, order, inFlight0, first, changes);
      SendingAll(inFlight0, first, t, order, changes, inFlight);
      SendingJust(inFlight0, first, t, order, changes, inFlight);
      OthersSame(t, disenable0, reorder, latest, inFlight0, disenable, reorder, latest, inFlight);
    }

    /** The order goes out as soon as nothing has to come before it. */
    method OrderIfDone(t: StickersType, order: seq<nat>)
      requires Fresh(inFlight, lastId) && t in disenable && t in reorder && reorder[t] == 0
      requires t in latest && latest[t] == Latest(order, 0)
      requires ClearTracked(clearRecent, false, inFlight) && ClearTracked(clearRecentAttached, true, inFlight)
      requires Tracked(t, disenable[t], 0, order, inFlight) && OthersFine(t, disenable, reorder, latest, inFlight)
      modifies this`reorder, this`inFlight, this`lastId, this`latest
      ensures Valid() && latest.Keys == old(latest).Keys && latest[t].order == order
      ensures forall other :: other != t && other in latest ==> latest[other] == old(latest)[other]
      ensures inFlight == if disenable[t] == {} && |order| >= 2
                          then old(inFlight)[old(lastId) + 1 := Reorder(t, order)] else old(inFlight)
    {
      if disenable[t] == {} {
        ghost var reorder0, latest0, inFlight0, lastId0 := reorder, latest, inFlight, lastId;
        SaveOrder(t, order);
        if |order| >= 2 {
          TrackedOrdered(t, order, inFlight0, lastId0, inFlight);
        }
        OthersSame(t, disenable, reorder0, latest0, inFlight0, disenable, reorder, latest, inFlight);
      }
      assert Fine(t, disenable, reorder, latest, inFlight);
    }

    /** Saves: earlier requests of the type are cancelled, and with them what they had not done. */
    method Save(t: StickersType, order: seq<nat>, changes: seq<Change>)
      requires Valid()
      modifies this
      ensures Valid()
      ensures latest.Keys == old(latest).Keys && t in latest && latest[t].order == order
      ensures forall other :: other != t && other in latest ==> latest[other] == old(latest)[other]
      ensures var kept := Surviving(old(inFlight), t, {old(clearRecent), old(clearRecentAttached)});
              var sent := Sending(kept, old(lastId), t, order, changes);
              inFlight == if DisenableIds(old(lastId), changes) == {} && |order| >= 2
                          then sent[old(lastId) + |changes| + 1 := Reorder(t, order)] else sent
      ensures AllSent(t, order, changes, old(lastId), inFlight) && JustSent(inFlight, t, changes)
    {
      assert Fine(t, disenable, reorder, latest, inFlight);
      Restart(t, order);
      Resend(t, order, changes);
    }

    method Resend(t: StickersType, order: seq<nat>, changes: seq<Change>)
      requires Fresh(inFlight, lastId) && clearRecent == clearRecentAttached == 0
      requires t in disenable && disenable[t] == {} && t in reorder && reorder[t] == 0
      requires t in latest && latest[t] == Latest(order, 0)
      requires Tracked(t, {}, 0, order, inFlight) && OthersFine(t, disenable, reorder, latest, inFlight)
      modifies this`disenable, this`reorder, this`clearRecent, this`clearRecentAttached, this`inFlight, this`lastId,
               this`latest
      ensures Valid() && latest.Keys == old(latest).Keys && latest[t].order == order
      ensures forall other :: other != t && other in latest ==> latest[other] == old(latest)[other]
      ensures var sent := Sending(old(inFlight), old(lastId), t, order, changes);
              inFlight == if DisenableIds(old(lastId), changes) == {} && |order| >= 2
                          then sent[old(lastId) + |changes| + 1 := Reorder(t, order)] else sent
      ensures AllSent(t, order, changes, old(lastId), inFlight) && JustSent(inFlight, t, changes)
    {
      ghost var first := lastId;
      SendAll(t, order, changes);
      ghost var sent := inFlight;
      OrderIfDone(t, order);
      AllSentAndOrder(t, order, changes, first, sent, first + |changes| + 1, Reorder(t, order), inFlight);
      JustSentAndOrder(sent, t, changes, first + |changes| + 1, order, inFlight);
    }

    /**
     * An answer, or a failure, to an install or an uninstall. The last one sends the order, which
     * is the last save's.
     */
    method Disenabled(id: nat)
      requires Valid() && id in inFlight && inFlight[id].Disenable?
      modifies this
      ensures Valid()
      ensures forall t :: t in latest ==> t in old(latest) && latest[t].order == old(latest)[t].order
      ensures var sent := old(inFlight)[id]; var rest := old(inFlight) - {id};
              inFlight == if (exists other :: other in rest && rest[other].Is(sent.of)) || |sent.order| < 2 then rest
                          else rest[old(lastId) + 1 := Reorder(sent.of, sent.order)]
    {
      var t, order := inFlight[id].of, inFlight[id].order;
      ghost var disenable0, inFlight0 := disenable, inFlight;
      assert Fine(t, disenable, reorder, latest, inFlight);
      inFlight := inFlight - {id};
      TrackedAnswered(t, disenable0[t], reorder[t], latest[t].order, inFlight0, id, inFlight);
      disenable := disenable[t := disenable[t] - {id}];
      OthersSame(t, disenable0, reorder, latest, inFlight0, disenable, reorder, latest, inFlight);
      assert latest[t] == Latest(order, 0);
      OrderIfDone(t, order);
    }

    method Reordered(id: nat)
      requires Valid() && id in inFlight && inFlight[id].Reorder?
      modifies this`reorder, this`inFlight
      ensures Valid() && inFlight == old(inFlight) - {id}
    {
      var t := inFlight[id].of;
      ghost var reorder0, inFlight0 := reorder, inFlight;
      assert Fine(t, disenable, reorder, latest, inFlight);
      inFlight := inFlight - {id};
      TrackedAnswered(t, disenable[t], reorder[t], latest[t].order, inFlight0, id, inFlight);
      reorder := reorder[t := 0];
      OthersSame(t, disenable, reorder0, latest, inFlight0, disenable, reorder, latest, inFlight);
      assert Fine(t, disenable, reorder, latest, inFlight);
    }

    method Cleared(id: nat)
      requires Valid() && id in inFlight && inFlight[id].Clear?
      modifies this`clearRecent, this`clearRecentAttached, this`inFlight
      ensures Valid() && inFlight == old(inFlight) - {id}
    {
      ghost var inFlight0 := inFlight;
      if inFlight[id].attached {
        clearRecentAttached := 0;
      } else {
        clearRecent := 0;
      }
      inFlight := inFlight - {id};
      forall t: StickersType ensures Fine(t, disenable, reorder, latest, inFlight) {
        assert Fine(t, disenable, reorder, latest, inFlight0);
        TrackedSame(t, disenable[t], reorder[t], latest[t].order, inFlight0, inFlight);
      }
    }

    lemma NeverTogether()
      requires Valid()
      ensures ReorderAlone(inFlight)
    {
      forall a, b | a in inFlight && b in inFlight && inFlight[a].Reorder? && inFlight[b].Is(inFlight[a].of)
        ensures a == b
      {
        assert Fine(inFlight[a].of, disenable, reorder, latest, inFlight);
      }
    }

    /** Once no request of a type is left, its last save has sent its order once, if that had two sets to order. */
    lemma OrderSent(t: StickersType)
      requires Valid() && forall id :: id in inFlight ==> !inFlight[id].Is(t)
      ensures t in latest && latest[t].reorders == if |latest[t].order| >= 2 then 1 else 0
    {
      assert Fine(t, disenable, reorder, latest, inFlight);
    }
  }

  // Whole runs.

  datatype Event =
    | SaveSets(of: StickersType, order: seq<nat>, removed: seq<nat>, now: nat)
    | Answer(id: nat)

  /** The sets after all saves. */
  function SetsAfter(sets: Sets, events: seq<Event>): Sets {
    if events == [] then sets
    else
      var before, event := SetsAfter(sets, events[..|events| - 1]), events[|events| - 1];
      if event.SaveSets? then Saved(before, event.order, event.removed, event.of, event.now) else before
  }

  /** The order of the last save of a type. */
  function LastOrder(events: seq<Event>, t: StickersType): seq<nat> {
    if events == [] then []
    else
      var event := events[|events| - 1];
      if event.SaveSets? && event.of == t then event.order else LastOrder(events[..|events| - 1], t)
  }

  /** It is that of the latest save of the type, whatever comes after. */
  lemma {:induction false} LastOrderMeans(events: seq<Event>, t: StickersType, k: nat)
    requires k < |events| && events[k].SaveSets? && events[k].of == t
    requires forall j :: k < j < |events| ==> !(events[j].SaveSets? && events[j].of == t)
    ensures LastOrder(events, t) == events[k].order
  {
    if k < |events| - 1 {
      LastOrderMeans(events[..|events| - 1], t, k);
    }
  }

  ghost predicate Ordered(local: LocalStickers)
    reads local
  {
    forall t: StickersType :: t in local.order
  }

  /**
   * Right after a save the server is asked to uninstall the removed sets that were met, and to install
   * the archived ones that stay and were put in the order, and nothing else for the type.
   */
  ghost predicate Asked(inFlight: InFlight, t: StickersType, sets: Sets, order: seq<nat>, removed: seq<nat>) {
    && (forall id :: Travels(inFlight, t, Uninstall(id)) <==> Met(sets, removed, id))
    && (forall id :: Travels(inFlight, t, Install(id)) <==>
          && id in order && id in sets && sets[id].archived && id !in removed
          && !(AnyCloud(removed) && (Cloud(id) || id == CUSTOM)))
  }

  lemma AskedByChanges(inFlight: InFlight, t: StickersType, sets: Sets, order: seq<nat>, removed: seq<nat>,
                       changes: seq<Change>)
    requires JustSent(inFlight, t, changes) && changes == Changes(sets, order, removed, t)
    ensures Asked(inFlight, t, sets, order, removed)
  {
    forall id ensures Uninstall(id) in changes <==> Met(sets, removed, id)
      ensures Install(id) in changes <==>
              && id in order && id in sets && sets[id].archived && id !in removed
              && !(AnyCloud(removed) && (Cloud(id) || id == CUSTOM))
    {
      ChangesMean(sets, order, removed, t, id);
    }
  }

  method Handle(local: LocalStickers, requests: Requests, event: Event)
    requires requests.Valid() && Ordered(local)
    modifies local, requests
    ensures requests.Valid() && Ordered(local)
    ensures local.sets == if event.SaveSets?
                          then Saved(old(local.sets), event.order, event.removed, event.of, event.now)
                          else old(local.sets)
    ensures event.SaveSets? ==>
              Asked(requests.inFlight, event.of, old(local.sets), event.order, event.removed)
    ensures forall t :: t in requests.latest ==>
              && t in old(requests.latest)
              && requests.latest[t].order == if event.SaveSets? && event.of == t then event.order
                                             else old(requests.latest)[t].order
  {
    match event
    case SaveSets(t, order, removed, now) =>
      ghost var sets := local.sets;
      var changes := local.SaveSets(order, removed, t, now);
      requests.Save(t, order, changes);
      AskedByChanges(requests.inFlight, t, sets, order, removed, changes);
    case Answer(id) =>
      if id in requests.inFlight {
        match requests.inFlight[id]
        case Disenable(_, _, _) => requests.Disenabled(id);
        case Reorder(_, _) => requests.Reordered(id);
        case Clear(_) => requests.Cleared(id);
      }
  }

  /**
   * Any saves and answers, in any order. The sets are those the saves leave; what is tracked of each
   * type belongs to its last save; and a reorder travels alone.
   */
  method Run(local: LocalStickers, events: seq<Event>) returns (requests: Requests)
    requires Ordered(local)
    modifies local
    ensures fresh(requests) && requests.Valid() && ReorderAlone(requests.inFlight)
    ensures local.sets == SetsAfter(old(local.sets), events)
    ensures forall t :: t in requests.latest ==> requests.latest[t].order == LastOrder(events, t)
  {
    ghost var sets := local.sets;
    requests := new Requests();
    for i := 0 to |events|
      invariant requests.Valid() && fresh(requests) && Ordered(local)
      invariant local.sets == SetsAfter(sets, events[..i])
      invariant forall t :: t in requests.latest ==> requests.latest[t].order == LastOrder(events[..i], t)
    {
      assert events[..i + 1][..i] == events[..i];
      Handle(local, requests, events[i]);
    }
    assert events[..|events|] == events;
    requests.NeverTogether();
  }
}
