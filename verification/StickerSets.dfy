/** Saving the user's sticker sets: what becomes of every set, and of the order. */
module StickerSets {
  import opened Ascending

  // Three ids stand for sets the server does not know.
  const CUSTOM: nat := 0xFFFF_FFFF_FFFF_FFFF
  const CLOUD_RECENT: nat := 0xFFFF_FFFF_FFFF_FFFC
  const CLOUD_RECENT_ATTACHED: nat := 0xFFFF_FFFF_FFFF_FFF9

  datatype StickersType = Stickers | Masks | Emoji

  datatype StickersSet = StickersSet(
    installed: bool, archived: bool, featured: bool, special: bool, emoji: bool, masks: bool,
    locked: int, installDate: nat, stickers: seq<nat>)
  {
    predicate Held() {
      featured || special || emoji || locked > 0
    }

    function Type(): (t: StickersType)
      ensures t == Emoji <==> emoji
      ensures t == Masks <==> masks && !emoji
    {
      if emoji then Emoji else if masks then Masks else Stickers
    }
  }

  type Sets = map<nat, StickersSet>
  datatype Recent = Recent(document: nat, count: int)

  /** What the server is told while saving. */
  datatype Change = Uninstall(id: nat) | Install(id: nat) | ClearRecent(attached: bool)

  predicate Cloud(id: nat) {
    id == CLOUD_RECENT || id == CLOUD_RECENT_ATTACHED
  }

  predicate AnyCloud(removed: seq<nat>) {
    CLOUD_RECENT in removed || CLOUD_RECENT_ATTACHED in removed
  }

  // What becomes of one set, whatever the other sets are.

  predicate Removed(id: nat, s: StickersSet, removed: seq<nat>) {
    || (AnyCloud(removed) && (Cloud(id) || id == CUSTOM))
    || (id in removed && !Cloud(id) && !s.archived && !s.Held())
  }

  function Uninstalled(id: nat, s: StickersSet, removed: seq<nat>): StickersSet {
    if id in removed && !s.archived then s.(installed := false, installDate := 0) else s
  }

  function Hidden(s: StickersSet, t: StickersType): StickersSet {
    if !s.archived && s.Type() == t then s.(installed := false) else s
  }

  function Ordered(id: nat, s: StickersSet, order: seq<nat>, removed: seq<nat>, now: nat): StickersSet {
    if id in order then
      s.(archived := s.archived && id in removed, installed := true,
         installDate := if s.installDate == 0 then now else s.installDate)
    else s
  }

  predicate Stays(s: StickersSet) {
    s.Held() || s.installed || s.archived
  }

  // The same for all sets, step by step.

  function AfterRemoval(sets: Sets, removed: seq<nat>): Sets {
    map id | id in sets && !Removed(id, sets[id], removed) :: Uninstalled(id, sets[id], removed)
  }

  function AfterHiding(sets: Sets, t: StickersType): Sets {
    map id | id in sets :: Hidden(sets[id], t)
  }

  function AfterOrder(sets: Sets, order: seq<nat>, removed: seq<nat>, now: nat): Sets {
    map id | id in sets :: Ordered(id, sets[id], order, removed, now)
  }

  function Staying(sets: Sets): Sets {
    map id | id in sets && Stays(sets[id]) :: sets[id]
  }

  function Saved(sets: Sets, order: seq<nat>, removed: seq<nat>, t: StickersType, now: nat): Sets {
    Staying(AfterOrder(AfterHiding(AfterRemoval(sets, removed), t), order, removed, now))
  }

  /** The part of an order whose sets are known. */
  function Known(order: seq<nat>, sets: set<nat>): seq<nat> {
    if order == [] then []
    else
      var last := |order| - 1;
      Known(order[..last], sets) + if order[last] in sets then [order[last]] else []
  }

  lemma KnownMore(order: seq<nat>, sets: set<nat>, id: nat)
    ensures Known(order + [id], sets) == if id in sets then Known(order, sets) + [id] else Known(order, sets)
  {
    assert (order + [id])[..|order|] == order;
  }

  lemma {:induction false} KnownIn(order: seq<nat>, sets: set<nat>, id: nat)
    ensures id in Known(order, sets) <==> id in order && id in sets
  {
    if order != [] {
      var last := |order| - 1;
      KnownIn(order[..last], sets, id);
      assert order == order[..last] + [order[last]];
    }
  }

  lemma KnownAll(order: seq<nat>, sets: set<nat>)
    ensures forall id :: id in Known(order, sets) <==> id in order && id in sets
  {
    forall id ensures id in Known(order, sets) <==> id in order && id in sets {
      KnownIn(order, sets, id);
    }
  }

  lemma {:induction false} KnownSame(order: seq<nat>, a: set<nat>, b: set<nat>)
    requires forall id :: id in order ==> (id in a <==> id in b)
    ensures Known(order, a) == Known(order, b)
  {
    if order != [] {
      var last := |order| - 1;
      assert forall id :: id in order[..last] ==> id in order;
      KnownSame(order[..last], a, b);
    }
  }

  /** What keeps a set that is not installed: it is featured, special, of emoji or in use. */
  predicate KeptAnyway(s: StickersSet) {
    s.featured || s.special || s.emoji || s.locked > 0
  }

  predicate Kept(s: StickersSet) {
    KeptAnyway(s) || s.installed || s.archived
  }

  /**
   * What saving means: no set stays without something that keeps it; a set of the saved type that
   * is not archived is installed exactly when it is in the order; and the order lists, in the
   * user's order, exactly those of its sets that stay.
   */
  lemma SavedMeans(sets: Sets, order: seq<nat>, removed: seq<nat>, t: StickersType, now: nat)
    ensures var saved := Saved(sets, order, removed, t, now);
            && (forall id :: id in saved ==> id in sets && Kept(saved[id]))
            && (forall id :: id in saved && !saved[id].archived && saved[id].Type() == t ==>
                  (saved[id].installed <==> id in order))
            && (forall id :: id in order && id in saved ==> saved[id].installed)
            && (now > 0 ==> forall id :: id in order && id in saved ==> saved[id].installDate > 0)
            && Known(order, AfterRemoval(sets, removed).Keys) == Known(order, saved.Keys)
            && (forall id :: id in Known(order, saved.Keys) <==> id in order && id in saved)
  {
    SavedOrder(sets, order, removed, t, now);
  }

  lemma SavedOrder(sets: Sets, order: seq<nat>, removed: seq<nat>, t: StickersType, now: nat)
    ensures var saved := Saved(sets, order, removed, t, now);
            && Known(order, AfterRemoval(sets, removed).Keys) == Known(order, saved.Keys)
            && (forall id :: id in Known(order, saved.Keys) <==> id in order && id in saved)
  {
    var saved := Saved(sets, order, removed, t, now);
    KnownSame(order, AfterRemoval(sets, removed).Keys, saved.Keys);
    KnownAll(order, saved.Keys);
  }

  /**
   * What becomes of a set that is put in the order: it is installed, no longer archived unless it was to be
   * removed, and dated now unless it has a date that its removal has not taken; nothing else of it changes.
   */
  lemma SavedOrdered(sets: Sets, order: seq<nat>, removed: seq<nat>, t: StickersType, now: nat, id: nat)
    requires id in order && id in Saved(sets, order, removed, t, now)
    ensures var saved := Saved(sets, order, removed, t, now)[id];
            && id in sets && saved.installed && (saved.archived <==> sets[id].archived && id in removed)
            && saved.installDate == (if sets[id].installDate == 0 || (id in removed && !sets[id].archived) then now
                                     else sets[id].installDate)
            && saved == sets[id].(installed := saved.installed, archived := saved.archived,
                                  installDate := saved.installDate)
  {
    var hiding := AfterHiding(AfterRemoval(sets, removed), t);
    assert id in AfterOrder(hiding, order, removed, now);
    assert hiding[id] == Hidden(Uninstalled(id, sets[id], removed), t);
  }

  /** It stays unless its removal takes it away. */
  lemma SavedStays(sets: Sets, order: seq<nat>, removed: seq<nat>, t: StickersType, now: nat, id: nat)
    requires id in order && id in sets && id !in removed && !(AnyCloud(removed) && (Cloud(id) || id == CUSTOM))
    ensures id in Saved(sets, order, removed, t, now)
  {
    var hiding := AfterHiding(AfterRemoval(sets, removed), t);
    assert id in AfterRemoval(sets, removed) && id in hiding;
    assert AfterOrder(hiding, order, removed, now)[id].installed;
  }

  /** What saving leaves alone: nothing else changes a set, and nothing else takes one away. */
  lemma SavedLeaves(sets: Sets, order: seq<nat>, removed: seq<nat>, t: StickersType, now: nat, id: nat)
    requires id in sets && id !in order && !(AnyCloud(removed) && (Cloud(id) || id == CUSTOM))
    ensures var saved := Saved(sets, order, removed, t, now);
            && (sets[id].archived ==> id in saved && saved[id] == sets[id])
            && (!sets[id].archived && KeptAnyway(sets[id]) ==> id in saved)
            && (sets[id].Type() != t && id !in removed && Kept(sets[id]) ==> id in saved && saved[id] == sets[id])
            && (id in saved ==>
                  saved[id] == sets[id].(installed := saved[id].installed, installDate := saved[id].installDate))
            && (id !in removed && id in saved ==> saved[id].installDate == sets[id].installDate)
  {
    SavedAt(sets, order, removed, t, now, id);
  }

  /** What becomes of one set that is not in the order. */
  lemma SavedAt(sets: Sets, order: seq<nat>, removed: seq<nat>, t: StickersType, now: nat, id: nat)
    requires id in sets && id !in order
    ensures var saved, s := Saved(sets, order, removed, t, now), Hidden(Uninstalled(id, sets[id], removed), t);
            && (id in saved <==> !Removed(id, sets[id], removed) && Stays(s))
            && (id in saved ==> saved[id] == s)
  {
    var removal := AfterRemoval(sets, removed);
    if id in removal {
      assert AfterHiding(removal, t)[id] == Hidden(removal[id], t);
    }
  }

  // The requests this takes.

  /** One uninstall for every removed set met that is not archived, in the order they are removed. */
  function Removals(sets: Sets, removed: seq<nat>): seq<Change> {
    if removed == [] then []
    else
      var last := |removed| - 1;
      var id, now := removed[last], AfterRemoval(sets, removed[..last]);
      Removals(sets, removed[..last]) +
      if Cloud(id) then [ClearRecent(id == CLOUD_RECENT_ATTACHED)]
      else if id in now && !now[id].archived then [Uninstall(id)]
      else []
  }

  /** One install for every archived set of the order that is not removed, in their order. */
  function Installs(sets: Sets, order: seq<nat>, removed: seq<nat>): seq<Change> {
    if order == [] then []
    else
      var last := |order| - 1;
      var id := order[last];
      Installs(sets, order[..last], removed) +
      if id in sets && sets[id].archived && id !in removed && id !in order[..last] then [Install(id)] else []
  }

  /** The removed set is met: no set the server does not know, and not taken away with such a one before. */
  ghost predicate Met(sets: Sets, removed: seq<nat>, id: nat) {
    && id in sets && !sets[id].archived && !Cloud(id)
    && exists i :: 0 <= i < |removed| && removed[i] == id && !(id == CUSTOM && AnyCloud(removed[..i]))
  }

  lemma {:induction false} RemovalsMean(sets: Sets, removed: seq<nat>, id: nat)
    ensures Uninstall(id) in Removals(sets, removed) <==> Met(sets, removed, id)
    ensures Install(id) !in Removals(sets, removed)
  {
    if removed != [] {
      var last := |removed| - 1;
      RemovalsMean(sets, removed[..last], id);
      MetMore(sets, removed, id);
    }
  }

  lemma ClearsMean(sets: Sets, removed: seq<nat>)
    ensures ClearRecent(true) in Removals(sets, removed) <==> CLOUD_RECENT_ATTACHED in removed
    ensures ClearRecent(false) in Removals(sets, removed) <==> CLOUD_RECENT in removed
  {
    ClearMeans(sets, removed, true, CLOUD_RECENT_ATTACHED);
    ClearMeans(sets, removed, false, CLOUD_RECENT);
  }

  lemma {:induction false} ClearMeans(sets: Sets, removed: seq<nat>, attached: bool, id: nat)
    requires id == if attached then CLOUD_RECENT_ATTACHED else CLOUD_RECENT
    ensures ClearRecent(attached) in Removals(sets, removed) <==> id in removed
  {
    if removed != [] {
      var last := removed[|removed| - 1];
      ClearMeans(sets, removed[..|removed| - 1], attached, id);
      assert id in removed <==> id in removed[..|removed| - 1] || id == last;
    }
  }

  lemma {:induction false} InstallsClear(sets: Sets, order: seq<nat>, removed: seq<nat>)
    ensures forall attached :: ClearRecent(attached) !in Installs(sets, order, removed)
  {
    if order != [] {
      InstallsClear(sets, order[..|order| - 1], removed);
    }
  }

  lemma MetMore(sets: Sets, removed: seq<nat>, id: nat)
    requires removed != []
    ensures var last := |removed| - 1;
            Met(sets, removed, id) <==>
            || Met(sets, removed[..last], id)
            || (removed[last] == id && id in sets && !sets[id].archived && !Cloud(id)
                && !(id == CUSTOM && AnyCloud(removed[..last])))
  {
    var last := |removed| - 1;
    var before := removed[..last];
    forall i | 0 <= i < last ensures before[..i] == removed[..i] && before[i] == removed[i] {
    }
    if Met(sets, before, id) {
      var i :| 0 <= i < last && before[i] == id && !(id == CUSTOM && AnyCloud(before[..i]));
      assert removed[i] == id && removed[..i] == before[..i];
    }
  }

  lemma {:induction false} InstallsMean(sets: Sets, order: seq<nat>, removed: seq<nat>, id: nat)
    ensures Install(id) in Installs(sets, order, removed) <==>
            id in order && id in sets && sets[id].archived && id !in removed
    ensures Uninstall(id) !in Installs(sets, order, removed)
  {
    if order != [] {
      var last := |order| - 1;
      InstallsMean(sets, order[..last], removed, id);
      assert order == order[..last] + [order[last]];
    }
  }

  lemma {:induction false} InstallsOnce(sets: Sets, order: seq<nat>, removed: seq<nat>, id: nat)
    ensures multiset(Installs(sets, order, removed))[Install(id)] <= 1
  {
    if order != [] {
      var last := |order| - 1;
      InstallsOnce(sets, order[..last], removed, id);
      InstallsMean(sets, order[..last], removed, id);
    }
  }

  /** Every change the server is told of. */
  function Changes(sets: Sets, order: seq<nat>, removed: seq<nat>, t: StickersType): seq<Change> {
    Removals(sets, removed) + Installs(AfterHiding(AfterRemoval(sets, removed), t), order, removed)
  }

  /**
   * Each removed set that is met is uninstalled; each archived set that stays, put in the order, is installed,
   * once.
   */
  lemma ChangesMean(sets: Sets, order: seq<nat>, removed: seq<nat>, t: StickersType, id: nat)
    ensures var changes := Changes(sets, order, removed, t);
            && (Uninstall(id) in changes <==> Met(sets, removed, id))
            && (Install(id) in changes <==>
                && id in order && id in sets && sets[id].archived && id !in removed
                && !(AnyCloud(removed) && (Cloud(id) || id == CUSTOM)))
            && multiset(changes)[Install(id)] <= 1
            && (ClearRecent(true) in changes <==> CLOUD_RECENT_ATTACHED in removed)
            && (ClearRecent(false) in changes <==> CLOUD_RECENT in removed)
  {
    ClearsMean(sets, removed);
    RemovalsMean(sets, removed, id);
    InstallsMean(AfterHiding(AfterRemoval(sets, removed), t), order, removed, id);
    InstallsOnce(AfterHiding(AfterRemoval(sets, removed), t), order, removed, id);
    InstallsClear(AfterHiding(AfterRemoval(sets, removed), t), order, removed);
  }

  // Recent stickers.

  function WithoutDocuments(recent: seq<Recent>, documents: set<nat>): seq<Recent> {
    if recent == [] then []
    else
      var last := |recent| - 1;
      WithoutDocuments(recent[..last], documents)
      + if recent[last].document in documents then [] else [recent[last]]
  }

  function DocumentsOf(sets: Sets, removed: seq<nat>): set<nat> {
    set id, document | id in removed && id in sets && document in sets[id].stickers :: document
  }

  function RecentAfter(recent: seq<Recent>, sets: Sets, removed: seq<nat>): seq<Recent> {
    if AnyCloud(removed) then [] else WithoutDocuments(recent, DocumentsOf(sets, removed))
  }

  /**
   * A recent sticker stays exactly if no list of recent ones is removed and it is in none of the
   * removed sets that are known; and those that stay keep their order.
   */
  lemma RecentMeans(recent: seq<Recent>, sets: Sets, removed: seq<nat>, item: Recent)
    ensures item in RecentAfter(recent, sets, removed) <==>
            && item in recent && !AnyCloud(removed)
            && forall id :: id in removed && id in sets ==> item.document !in sets[id].stickers
    ensures !AnyCloud(removed) ==>
              forall first, rest: seq<Recent> :: recent == first + rest ==>
                RecentAfter(recent, sets, removed)
                == RecentAfter(first, sets, removed) + RecentAfter(rest, sets, removed)
  {
    WithoutMeans(recent, DocumentsOf(sets, removed), item);
    forall first, rest: seq<Recent> | recent == first + rest
      ensures WithoutDocuments(recent, DocumentsOf(sets, removed))
           == WithoutDocuments(first, DocumentsOf(sets, removed)) + WithoutDocuments(rest, DocumentsOf(sets, removed))
    {
      WithoutParts(first, rest, DocumentsOf(sets, removed));
    }
  }

  lemma {:induction false} WithoutMeans(recent: seq<Recent>, documents: set<nat>, item: Recent)
    ensures item in WithoutDocuments(recent, documents) <==> item in recent && item.document !in documents
  {
    if recent != [] {
      var last := |recent| - 1;
      WithoutMeans(recent[..last], documents, item);
      assert recent == recent[..last] + [recent[last]];
    }
  }

  lemma WithoutLast(recent: seq<Recent>, item: Recent, documents: set<nat>)
    ensures WithoutDocuments(recent + [item], documents)
         == WithoutDocuments(recent, documents) + if item.document in documents then [] else [item]
  {
    assert (recent + [item])[..|recent|] == recent;
  }

  lemma {:induction false} WithoutParts(first: seq<Recent>, rest: seq<Recent>, documents: set<nat>)
    ensures WithoutDocuments(first + rest, documents)
         == WithoutDocuments(first, documents) + WithoutDocuments(rest, documents)
  {
    if rest == [] {
      assert first + rest == first;
    } else {
      var item, before := rest[|rest| - 1], rest[..|rest| - 1];
      assert rest == before + [item] && first + rest == first + before + [item];
      WithoutParts(first, before, documents);
      WithoutLast(before, item, documents);
      WithoutLast(first + before, item, documents);
      var end := if item.document in documents then [] else [item];
      assert WithoutDocuments(first, documents) + WithoutDocuments(before, documents) + end
          == WithoutDocuments(first, documents) + (WithoutDocuments(before, documents) + end);
    }
  }

  lemma {:induction false} WithoutBoth(recent: seq<Recent>, a: set<nat>, b: set<nat>)
    ensures WithoutDocuments(WithoutDocuments(recent, a), b) == WithoutDocuments(recent, a + b)
  {
    if recent != [] {
      var last := |recent| - 1;
      WithoutBoth(recent[..last], a, b);
      var before := WithoutDocuments(recent[..last], a);
      if recent[last].document !in a {
        assert (before + [recent[last]])[..|before|] == before;
      } else {
        assert before + [] == before;
      }
    }
  }

  // One step of each loop.

  /** What removing one id does to the sets. */
  function RemoveOne(sets: Sets, id: nat): Sets {
    if Cloud(id) then sets - {CLOUD_RECENT, CLOUD_RECENT_ATTACHED, CUSTOM}
    else if id in sets && !sets[id].archived then
      if sets[id].Held() then sets[id := sets[id].(installed := false, installDate := 0)] else sets - {id}
    else sets
  }

  lemma RemovedMore(sets: Sets, removed: seq<nat>, id: nat)
    ensures AfterRemoval(sets, removed + [id]) == RemoveOne(AfterRemoval(sets, removed), id)
  {
    var more := removed + [id];
    assert forall j :: j in more <==> j in removed || j == id;
  }

  lemma RecentMore(recent: seq<Recent>, sets: Sets, removed: seq<nat>, id: nat)
    requires !Cloud(id)
    ensures var before, now := RecentAfter(recent, sets, removed), AfterRemoval(sets, removed);
            RecentAfter(recent, sets, removed + [id])
            == if id in now then WithoutDocuments(before, set d | d in now[id].stickers) else before
  {
    var more, now := removed + [id], AfterRemoval(sets, removed);
    assert forall j :: j in more <==> j in removed || j == id;
    if id in now {
      var documents := set d | d in now[id].stickers;
      WithoutBoth(recent, DocumentsOf(sets, removed), documents);
      assert DocumentsOf(sets, more) == DocumentsOf(sets, removed) + documents;
      assert WithoutDocuments([], documents) == [];
    } else if !AnyCloud(removed) {
      assert DocumentsOf(sets, more) == DocumentsOf(sets, removed);
    }
  }

  lemma OrderedMore(sets: Sets, order: seq<nat>, removed: seq<nat>, now: nat, id: nat)
    ensures var before := AfterOrder(sets, order, removed, now);
            AfterOrder(sets, order + [id], removed, now)
            == if id in before then before[id := Ordered(id, before[id], [id], removed, now)] else before
  {
    var more := order + [id];
    assert forall j :: j in more <==> j in order || j == id;
  }

  /** Erasing in place: recent[..i] is what is left of was[..done], the rest is still to be looked at. */
  ghost predicate Dropping(was: seq<Recent>, documents: set<nat>, recent: seq<Recent>, i: nat, done: nat) {
    && i <= |recent| && done <= |was| && done + |recent| - i == |was|
    && recent[..i] == WithoutDocuments(was[..done], documents) && recent[i..] == was[done..]
  }

  lemma NothingDropped(was: seq<Recent>, documents: set<nat>)
    ensures Dropping(was, documents, was, 0, 0)
  {
    assert was[..0] == [];
  }

  lemma DropNext(was: seq<Recent>, documents: set<nat>, recent: seq<Recent>, i: nat, done: nat)
    requires Dropping(was, documents, recent, i, done) && i < |recent|
    ensures if recent[i].document in documents then Dropping(was, documents, recent[..i] + recent[i + 1..], i, done + 1)
            else Dropping(was, documents, recent, i + 1, done + 1)
  {
    assert recent[i] == recent[i..][0] == was[done..][0] == was[done];
    WithoutMore(was, documents, done);
    assert recent[i + 1..] == recent[i..][1..] == was[done..][1..] == was[done + 1..];
    Erased(recent, i);
    assert recent[..i + 1] == recent[..i] + [recent[i]];
  }

  lemma WithoutMore(was: seq<Recent>, documents: set<nat>, done: nat)
    requires done < |was|
    ensures WithoutDocuments(was[..done + 1], documents)
         == if was[done].document in documents then WithoutDocuments(was[..done], documents)
            else WithoutDocuments(was[..done], documents) + [was[done]]
  {
    assert was[..done + 1][..done] == was[..done];
  }

  lemma Erased<T>(s: seq<T>, i: nat)
    requires i < |s|
    ensures (s[..i] + s[i + 1..])[..i] == s[..i] && (s[..i] + s[i + 1..])[i..] == s[i + 1..]
  {
  }

  lemma AllDropped(was: seq<Recent>, documents: set<nat>, recent: seq<Recent>, i: nat, done: nat)
    requires Dropping(was, documents, recent, i, done) && i == |recent|
    ensures recent == WithoutDocuments(was, documents)
  {
    assert was[..done] == was && recent[..i] == recent;
  }

  /** All sets but those left to visit are hidden. */
  function HidingBut(sets: Sets, t: StickersType, left: set<int>): Sets {
    map id | id in sets :: if id in left then sets[id] else Hidden(sets[id], t)
  }

  lemma HidingMore(sets: Sets, t: StickersType, left: set<int>, id: nat)
    requires id in sets && id in left
    ensures HidingBut(sets, t, left)[id] == sets[id]
    ensures HidingBut(sets, t, left - {id}) == HidingBut(sets, t, left)[id := Hidden(sets[id], t)]
    ensures Hidden(sets[id], t) == sets[id] ==> HidingBut(sets, t, left - {id}) == HidingBut(sets, t, left)
  {
  }

  /** The first i ids of the order are done with. */
  ghost predicate OrderedSoFar(was: Sets, order: seq<nat>, removed: seq<nat>, now: nat, i: nat,
                               sets: Sets, known: seq<nat>, changes: seq<Change>)
    requires i <= |order|
  {
    && sets == AfterOrder(was, order[..i], removed, now)
    && known == Known(order[..i], was.Keys)
    && changes == Installs(was, order[..i], removed)
  }

  /** What one id of an order changes, in the sets, the order kept and the requests. */
  ghost predicate OrderedOne(sets: Sets, id: nat, removed: seq<nat>, now: nat, known: seq<nat>,
                             sets': Sets, known': seq<nat>, more: seq<Change>)
  {
    && sets' == (if id in sets then sets[id := Ordered(id, sets[id], [id], removed, now)] else sets)
    && known' == (if id in sets then known + [id] else known)
    && more == if id in sets && sets[id].archived && id !in removed then [Install(id)] else []
  }

  lemma OrderedSoFarMore(was: Sets, order: seq<nat>, removed: seq<nat>, now: nat, i: nat, sets: Sets,
                         known: seq<nat>, changes: seq<Change>, sets': Sets, known': seq<nat>, more: seq<Change>)
    requires i < |order| && OrderedSoFar(was, order, removed, now, i, sets, known, changes)
    requires OrderedOne(sets, order[i], removed, now, known, sets', known', more)
    ensures OrderedSoFar(was, order, removed, now, i + 1, sets', known', changes + more)
  {
    var id, before := order[i], order[..i];
    assert order[..i + 1] == before + [id] && (before + [id])[..i] == before;
    OrderedMore(was, before, removed, now, id);
    KnownMore(before, was.Keys, id);
  }

  class LocalStickers {
    var sets: Sets
    var order: map<StickersType, seq<nat>>
    var recent: seq<Recent>

    constructor (sets: Sets, order: map<StickersType, seq<nat>>, recent: seq<Recent>)
      ensures this.sets == sets && this.order == order && this.recent == recent
    {
      this.sets, this.order, this.recent := sets, order, recent;
    }

    method DropRecent(stickers: seq<nat>)
      modifies this`recent
      ensures recent == WithoutDocuments(old(recent), set d | d in stickers)
    {
      ghost var was, documents, done := recent, set d | d in stickers, 0;
      NothingDropped(was, documents);
      var i := 0;
      while i < |recent|
        invariant Dropping(was, documents, recent, i, done)
        decreases |recent| - i
      {
        DropNext(was, documents, recent, i, done);
        if recent[i].document in stickers {
          recent := recent[..i] + recent[i + 1..];
        } else {
          i := i + 1;
        }
        done := done + 1;
      }
      AllDropped(was, documents, recent, i, done);
    }

    method RemoveSet(id: nat) returns (changes: seq<Change>)
      modifies this`sets, this`recent
      ensures sets == RemoveOne(old(sets), id)
      ensures recent == if Cloud(id) then []
                        else if id in old(sets) then
                          WithoutDocuments(old(recent), set d | d in old(sets)[id].stickers)
                        else old(recent)
      ensures changes == if Cloud(id) then [ClearRecent(id == CLOUD_RECENT_ATTACHED)]
                         else if id in old(sets) && !old(sets)[id].archived then [Uninstall(id)]
                         else []
    {
      changes := [];
      if Cloud(id) {
        sets := sets - {CLOUD_RECENT} - {CLOUD_RECENT_ATTACHED} - {CUSTOM};
        recent := [];
        changes := [ClearRecent(id == CLOUD_RECENT_ATTACHED)];
      } else if id in sets {
        var s := sets[id];
        DropRecent(s.stickers);
        if !s.archived {
          changes := [Uninstall(id)];
          if !s.featured && !s.special && !s.emoji && !(s.locked > 0) {
            sets := sets - {id};
          } else {
            sets := sets[id := s.(installed := false, archived := false, installDate := 0)];
          }
        }
      }
    }

    method RemoveSets(removed: seq<nat>) returns (changes: seq<Change>)
      modifies this`sets, this`recent
      ensures sets == AfterRemoval(old(sets), removed)
      ensures recent == RecentAfter(old(recent), old(sets), removed)
      ensures changes == Removals(old(sets), removed)
    {
      ghost var was, wasRecent := sets, recent;
      changes := [];
      NothingRemoved(was, wasRecent);
      for i := 0 to |removed|
        invariant sets == AfterRemoval(was, removed[..i])
        invariant recent == RecentAfter(wasRecent, was, removed[..i])
        invariant changes == Removals(was, removed[..i])
      {
        assert removed[..i + 1] == removed[..i] + [removed[i]] && removed[..i + 1][..i] == removed[..i];
        RemovedMore(was, removed[..i], removed[i]);
        if !Cloud(removed[i]) {
          RecentMore(wasRecent, was, removed[..i], removed[i]);
        }
        var more := RemoveSet(removed[i]);
        changes := changes + more;
      }
      assert removed[..|removed|] == removed;
    }

    /** The installed mark goes from every set of the type, to be given again to those in the order. */
    method ClearInstalled(t: StickersType)
      modifies this`sets
      ensures sets == AfterHiding(old(sets), t)
    {
      ghost var was := sets;
      var left := sets.Keys;
      while |left| > 0
        invariant left <= was.Keys && sets == HidingBut(was, t, left)
        decreases |left|
      {
        var id := Least(left);
        HidingMore(was, t, left, id);
        left := left - {id};
        var s := sets[id];
        var thatType := if s.emoji then Emoji else if s.masks then Masks else Stickers;
        if !s.archived && t == thatType {
          sets := sets[id := s.(installed := false)];
        }
      }
      assert left == {};
    }

    method OrderSet(id: nat, removed: seq<nat>, t: StickersType, now: nat) returns (changes: seq<Change>)
      requires t in order
      modifies this`sets, this`order
      ensures t in order && order == old(order)[t := order[t]]
      ensures OrderedOne(old(sets), id, removed, now, old(order)[t], sets, order[t], changes)
    {
      changes := [];
      if id !in sets {
        return;
      }
      var s := sets[id];
      if s.archived && id !in removed {
        changes := [Install(id)];
        s := s.(archived := false);
      }
      order := order[t := order[t] + [id]];
      s := s.(installed := true);
      if s.installDate == 0 {
        s := s.(installDate := now);
      }
      sets := sets[id := s];
    }

    method OrderSets(localOrder: seq<nat>, removed: seq<nat>, t: StickersType, now: nat) returns (changes: seq<Change>)
      requires t in order
      modifies this`sets, this`order
      ensures sets == AfterOrder(old(sets), localOrder, removed, now)
      ensures order == old(order)[t := Known(localOrder, old(sets).Keys)]
      ensures changes == Installs(old(sets), localOrder, removed)
    {
      ghost var was, wasOrder := sets, order;
      changes := [];
      order := order[t := []];
      assert OrderedSoFar(was, localOrder, removed, now, 0, sets, order[t], changes);
      for i := 0 to |localOrder|
        invariant t in order && order == wasOrder[t := order[t]]
        invariant OrderedSoFar(was, localOrder, removed, now, i, sets, order[t], changes)
      {
        ghost var sets0, known0 := sets, order[t];
        var more := OrderSet(localOrder[i], removed, t, now);
        OrderedSoFarMore(was, localOrder, removed, now, i, sets0, known0, changes, sets, order[t], more);
        changes := changes + more;
      }
      assert localOrder[..|localOrder|] == localOrder;
    }

    method Sweep()
      modifies this`sets
      ensures sets == Staying(old(sets))
    {
      ghost var was := sets;
      var left := sets.Keys;
      while |left| > 0
        invariant left <= was.Keys
        invariant sets == map id | id in was && (id in left || Stays(was[id])) :: was[id]
        decreases |left|
      {
        var id := Least(left);
        left := left - {id};
        var s := sets[id];
        if !(s.featured || s.installed || s.archived || s.special || s.emoji || s.locked > 0) {
          sets := sets - {id};
        }
      }
      assert left == {};
    }

    /** All that saving does here, and what it asks the server to do. */
    method SaveSets(localOrder: seq<nat>, localRemoved: seq<nat>, t: StickersType, now: nat)
      returns (changes: seq<Change>)
      requires t in order
      modifies this
      ensures sets == Saved(old(sets), localOrder, localRemoved, t, now)
      ensures order == old(order)[t := Known(localOrder, sets.Keys)]
      ensures recent == RecentAfter(old(recent), old(sets), localRemoved)
      ensures changes == Changes(old(sets), localOrder, localRemoved, t)
    {
      ghost var was := sets;
      changes := RemoveSets(localRemoved);
      ClearInstalled(t);
      var installs := OrderSets(localOrder, localRemoved, t, now);
      changes := changes + installs;
      Sweep();
      KnownSame(localOrder, AfterHiding(AfterRemoval(was, localRemoved), t).Keys, sets.Keys);
    }
  }

  lemma {:induction false} NoDocuments(recent: seq<Recent>)
    ensures WithoutDocuments(recent, {}) == recent
  {
    if recent != [] {
      NoDocuments(recent[..|recent| - 1]);
    }
  }

  lemma NothingRemoved(sets: Sets, recent: seq<Recent>)
    ensures AfterRemoval(sets, []) == sets && RecentAfter(recent, sets, []) == recent && Removals(sets, []) == []
  {
    NoDocuments(recent);
    assert DocumentsOf(sets, []) == {};
  }
}
