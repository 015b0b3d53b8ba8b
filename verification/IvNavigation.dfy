/** The pages of an instant view: which are loaded, which is shown, and the browser's history of them. */
module IvNavigation {
  import opened Options

  /**
   * What is kept for a page. Contents are told apart by a version number; documents made from them
   * are elements, with an identity, and can be updated in place.
   */
  datatype Entry = Entry(loading: bool, content: Option<nat>, dom: Option<nat>, contentUpdated: bool,
                         reloadPending: bool)

  const NOTHING := Entry(false, None, None, false, false)

  datatype State = State(position: nat, index: nat, scrolled: bool)

  type Cache = map<nat, Entry>

  // What holds whenever no handler runs.

  /** Elements are told apart, and the shown one is that of the shown page; that of page 0 is never lost. */
  ghost predicate Elements(cache: Cache, index: nat, shown: nat, doms: map<nat, nat>) {
    && shown in doms && (forall d :: d in doms ==> d < |doms|)
    && (index != 0 ==> index in cache && cache[index].dom.Some? && 0 in cache && cache[0].dom.Some?)
    && (forall i :: i in cache && cache[i].dom.Some? ==>
          cache[i].dom.value in doms && (cache[i].dom.value == shown <==> i == index))
    && (forall i, j :: i in cache && j in cache && cache[i].dom.Some? && cache[i].dom == cache[j].dom ==> i == j)
  }

  /** A page is being loaded or has something to show, which but for page 0 was loaded before. */
  ghost predicate Entries(cache: Cache) {
    forall i :: i in cache ==>
      && (cache[i].loading || cache[i].content.Some? || cache[i].dom.Some?)
      && (cache[i].contentUpdated ==> cache[i].content.Some? && cache[i].dom.Some?)
      && (i != 0 && cache[i].dom.Some? ==> cache[i].content.Some?)
  }

  /** A page is to be loaded again only while it is loading. */
  ghost predicate Reloads(cache: Cache, but: set<nat>) {
    forall i :: i in cache && i !in but && cache[i].reloadPending ==> cache[i].loading
  }

  /** The shown page shows its last content; a hidden element does too, or is marked to be updated. */
  ghost predicate UpToDate(cache: Cache, index: nat, shown: nat, doms: map<nat, nat>)
    requires Elements(cache, index, shown, doms)
  {
    forall i :: i in cache && cache[i].content.Some? ==>
      if i == index then doms[shown] == cache[i].content.value && !cache[i].contentUpdated
      else cache[i].dom.Some? && !cache[i].contentUpdated ==> doms[cache[i].dom.value] == cache[i].content.value
  }

  ghost predicate Core(cache: Cache, index: nat, shown: nat, doms: map<nat, nat>) {
    Elements(cache, index, shown, doms) && Entries(cache) && UpToDate(cache, index, shown, doms)
  }

  /** A page that is waited for is being loaded for the first time. */
  ghost predicate Awaited(pending: Option<nat>, cache: Cache, index: nat) {
    pending.Some? ==>
      var i := pending.value;
      i != index && i in cache && cache[i].loading && cache[i].dom.None? && cache[i].content.None?
  }

  /** Every page of the history but the shown one has an element to come back to. */
  ghost predicate Stored(history: seq<State>, at: nat, cache: Cache, index: nat) {
    && at < |history| && history[at].index == index
    && forall k :: 0 <= k < |history| ==>
         history[k].scrolled
         && (history[k].index == index || (history[k].index in cache && cache[history[k].index].dom.Some?))
  }

  /** Loading goes on as before; at most the page shown so far has a new entry. */
  ghost predicate SameLoads(before: Cache, after: Cache, index: nat) {
    && (forall i :: i in before ==>
          && i in after && after[i].loading == before[i].loading && after[i].content == before[i].content
          && after[i].reloadPending == before[i].reloadPending)
    && (forall i :: i in after && i !in before ==>
          i == index && !after[i].loading && !after[i].reloadPending && after[i].content == None)
  }

  /** How far a page is loaded. */
  datatype Load = Load(loading: bool, again: bool, content: Option<nat>)

  const NOT_ASKED := Load(false, false, None)

  type Loads = map<nat, Load>

  function LoadOf(entry: Entry): Load {
    Load(entry.loading, entry.reloadPending, entry.content)
  }

  /** The pages something was loaded for, or is. */
  function LoadsOf(cache: Cache): Loads {
    map i | i in cache && LoadOf(cache[i]) != NOT_ASKED :: LoadOf(cache[i])
  }

  function Looked(loads: Loads, i: nat): Load {
    if i in loads then loads[i] else NOT_ASKED
  }

  lemma LookedOf(cache: Cache, i: nat)
    ensures Looked(LoadsOf(cache), i) == if i in cache then LoadOf(cache[i]) else NOT_ASKED
  {
  }

  lemma SameLoadsMeans(before: Cache, after: Cache, index: nat)
    requires SameLoads(before, after, index)
    ensures LoadsOf(after) == LoadsOf(before)
  {
  }

  /** No page but i is touched. */
  ghost predicate OnlyPage(before: Cache, after: Cache, i: nat) {
    i in after && forall j :: j != i ==> (j in after <==> j in before) && (j in after ==> after[j] == before[j])
  }

  /** What was known of the other pages stays true. */
  lemma OthersStay(before: Cache, after: Cache, i: nat, pending: Option<nat>, index: nat)
    requires OnlyPage(before, after, i) && Reloads(before, {i})
    ensures Reloads(after, {i})
    ensures (after[i].reloadPending ==> after[i].loading) ==> Reloads(after, {})
    ensures pending != Some(i) && Awaited(pending, before, index) ==> Awaited(pending, after, index)
  {
  }

  lemma OneLoad(before: Cache, after: Cache, i: nat)
    requires OnlyPage(before, after, i) && LoadOf(after[i]) != NOT_ASKED
    ensures LoadsOf(after) == LoadsOf(before)[i := LoadOf(after[i])]
  {
  }

  // What the pages and the browser do, as a reader sees it.

  /** How far each page is loaded, the page waited for, the page shown, and where the browser is. */
  datatype Browser = Browser(loads: Loads, pending: Option<nat>, index: nat, history: seq<State>, at: nat,
                             position: nat)

  const START := Browser(map[], None, 0, [State(0, 0, true)], 0, 0)

  function Went(b: Browser, i: nat): Browser
    requires b.at < |b.history|
  {
    if i == b.index then b.(pending := None, history := b.history[b.at := State(b.position, i, true)])
    else
      var left, come := State(b.position, b.index, true), State(b.position + 1, i, true);
      b.(pending := None, index := i, history := b.history[..b.at] + [left, come], at := b.at + 1,
         position := b.position + 1)
  }

  lemma WentWaiting(b: Browser, pending: Option<nat>, i: nat)
    requires b.at < |b.history|
    ensures Went(b.(pending := pending), i) == Went(b, i)
  {
  }

  /** Page 0 and every page that was ever loaded are shown at once; any other is waited for. */
  function Navigated(b: Browser, i: nat): Browser
    requires b.at < |b.history|
  {
    var load := Looked(b.loads, i);
    if i == 0 || load.content.Some? then Went(b, i)
    else b.(pending := Some(i), loads := b.loads[i := load.(loading := true)])
  }

  function Reloading(b: Browser, i: nat): Browser {
    var load := Looked(b.loads, i);
    b.(loads := b.loads[i := if load.loading then load.(again := true) else load.(loading := true)])
  }

  function Taken(b: Browser, i: nat, version: nat): Browser {
    b.(loads := b.loads[i := Load(false, Looked(b.loads, i).again, Some(version))])
  }

  /** A page that is loading has come, and is shown if it was waited for. */
  function Come(b: Browser, i: nat, version: nat): Browser
    requires b.at < |b.history|
  {
    var loaded := Taken(b, i, version);
    if b.pending == Some(i) then Went(loaded, i) else loaded
  }

  function AskedAgain(b: Browser, i: nat): Browser {
    var load := Looked(b.loads, i);
    if load.again then b.(loads := b.loads[i := load.(loading := true, again := false)]) else b
  }

  function Unmarked(b: Browser, i: nat): Browser {
    b.(loads := b.loads[i := Looked(b.loads, i).(again := false)])
  }

  lemma AskedIsReloading(b: Browser, i: nat)
    requires var load := Looked(b.loads, i); load.again && !load.loading
    ensures AskedAgain(b, i) == Reloading(Unmarked(b, i), i)
  {
  }

  function Answered(b: Browser, i: nat, version: nat): Browser
    requires b.at < |b.history|
  {
    AskedAgain(Come(b, i, version), i)
  }

  function Moved(b: Browser, k: nat): Browser
    requires k < |b.history|
  {
    var i := b.history[k].index;
    b.(pending := None, index := i, at := k, position := if i == b.index then b.position else b.history[k].position)
  }

  /** The history is numbered, no two neighbours are the same page, and `position` is where the browser is. */
  ghost predicate Numbered(b: Browser) {
    && b.position == b.at < |b.history| && b.history[b.at].index == b.index
    && (forall k :: 0 <= k < |b.history| ==> b.history[k].position == k)
    && (forall k :: 0 <= k < |b.history| - 1 ==> b.history[k].index != b.history[k + 1].index)
  }

  /** Going to a page keeps the numbering. */
  lemma NumberedPushed(b: Browser, i: nat)
    requires Numbered(b)
    ensures Numbered(Went(b, i))
  {
  }

  /**
   * Moving through the history keeps `position` right exactly if the entry moved to is for another
   * page than the one shown (or is where the browser already was).
   */
  lemma NumberedMoved(b: Browser, k: nat)
    requires Numbered(b) && k < |b.history|
    ensures Numbered(Moved(b, k)) <==> b.history[k].index != b.index || k == b.at
    ensures k == b.at + 1 || k + 1 == b.at ==> Numbered(Moved(b, k))
  {
  }

  // What one handler does to them.

  /** Another page is shown: the element in view is put away for the page it belongs to. */
  function PutAway(cache: Cache, index: nat, shown: nat): Cache {
    cache[index := (if index in cache then cache[index] else NOTHING).(dom := Some(shown))]
  }

  /** What changes when page i, which has an element, is shown instead. */
  ghost predicate Showing(cache: Cache, index: nat, shown: nat, doms: map<nat, nat>, i: nat,
                          cache': Cache, shown': nat, doms': map<nat, nat>)
    requires i in cache && cache[i].dom.Some?
  {
    var away := PutAway(cache, index, shown);
    && shown' == cache[i].dom.value
    && if away[i].contentUpdated && away[i].content.Some?
       then cache' == away[i := away[i].(contentUpdated := false)] && doms' == doms[shown' := away[i].content.value]
       else cache' == away && doms' == doms
  }

  lemma ElementsShown(cache: Cache, index: nat, shown: nat, doms: map<nat, nat>, i: nat,
                      cache': Cache, shown': nat, doms': map<nat, nat>)
    requires Elements(cache, index, shown, doms) && i != index && i in cache && cache[i].dom.Some?
    requires Showing(cache, index, shown, doms, i, cache', shown', doms')
    ensures Elements(cache', i, shown', doms')
  {
    assert doms'.Keys == doms.Keys;
  }

  lemma CoreShown(cache: Cache, index: nat, shown: nat, doms: map<nat, nat>, i: nat,
                  cache': Cache, shown': nat, doms': map<nat, nat>)
    requires Core(cache, index, shown, doms) && i != index && i in cache && cache[i].dom.Some?
    requires Showing(cache, index, shown, doms, i, cache', shown', doms')
    ensures Core(cache', i, shown', doms')
  {
    ElementsShown(cache, index, shown, doms, i, cache', shown', doms');
  }

  /** The browser is at an entry for page i, which is not shown yet. */
  ghost predicate Arriving(history: seq<State>, at: nat, cache: Cache, index: nat, i: nat) {
    && at < |history| && history[at].index == i && (i == index || (i in cache && cache[i].dom.Some?))
    && forall k :: 0 <= k < |history| ==>
         (k == at || history[k].scrolled)
         && (history[k].index == index || (history[k].index in cache && cache[history[k].index].dom.Some?))
  }

  lemma StoredShown(history: seq<State>, at: nat, cache: Cache, index: nat, shown: nat, doms: map<nat, nat>, i: nat,
                    cache': Cache, shown': nat, doms': map<nat, nat>, position: nat, history': seq<State>)
    requires Arriving(history, at, cache, index, i)
    requires if i == index then cache' == cache
             else i in cache && cache[i].dom.Some? && Showing(cache, index, shown, doms, i, cache', shown', doms')
    requires history' == if history[at].scrolled then history else history[at := State(position, i, true)]
    ensures Stored(history', at, cache', i) && SameLoads(cache, cache', index)
  {
    forall k | 0 <= k < |history'|
      ensures history'[k].scrolled
      ensures history'[k].index == i || (history'[k].index in cache' && cache'[history'[k].index].dom.Some?)
    {
      assert history'[k].index == history[k].index;
    }
  }

  lemma ArrivingPushed(history: seq<State>, at: nat, cache: Cache, index: nat, i: nat, position: nat,
                       history': seq<State>)
    requires Stored(history, at, cache, index) && i in cache && cache[i].dom.Some?
    requires history' == history[..at] + [State(position, index, true), State(position + 1, i, false)]
    ensures Arriving(history', at + 1, cache, index, i) && !history'[at + 1].scrolled
    ensures history'[at + 1].position == position + 1
    ensures history'[at + 1 := State(position + 1, i, true)]
         == history[..at] + [State(position, index, true), State(position + 1, i, true)]
  {
  }

  lemma CoreLoaded(cache: Cache, index: nat, shown: nat, doms: map<nat, nat>, i: nat, version: nat,
                   cache': Cache, doms': map<nat, nat>)
    requires Core(cache, index, shown, doms) && i in cache
    requires var loaded := cache[i].(loading := false, content := Some(version));
             if index != i then doms' == doms && cache' == cache[i := loaded.(contentUpdated := loaded.dom.Some?)]
             else cache' == cache[i := loaded] && doms' == doms[shown := version]
    ensures Core(cache', index, shown, doms')
  {
  }

  lemma CoreAsked(cache: Cache, index: nat, shown: nat, doms: map<nat, nat>, i: nat, again: bool,
                  cache': Cache)
    requires Core(cache, index, shown, doms) && i in cache && cache' == cache[i := cache[i].(reloadPending := again)]
    ensures Core(cache', index, shown, doms)
  {
  }

  lemma StoredLoaded(history: seq<State>, at: nat, cache: Cache, index: nat, i: nat, cache': Cache)
    requires Stored(history, at, cache, index) && i in cache
    requires OnlyPage(cache, cache', i) && cache'[i].dom == cache[i].dom
    ensures Stored(history, at, cache', index)
  {
  }

  lemma CoreMade(cache: Cache, index: nat, shown: nat, doms: map<nat, nat>, i: nat, cache': Cache, doms': map<nat, nat>)
    requires Core(cache, index, shown, doms) && i in cache && cache[i].content.Some? && cache[i].dom.None? && i != index
    requires cache' == cache[i := cache[i].(dom := Some(|doms|))] && doms' == doms[|doms| := cache[i].content.value]
    ensures Core(cache', index, shown, doms')
  {
  }

  lemma CoreLoading(cache: Cache, index: nat, shown: nat, doms: map<nat, nat>, i: nat, cache': Cache)
    requires Core(cache, index, shown, doms)
    requires cache' == cache[i := (if i in cache then cache[i] else NOTHING).(loading := true)]
    requires index == 0 || i in cache || i != index
    ensures Core(cache', index, shown, doms)
  {
  }

  class InstantView {
    var cache: Cache
    var pending: Option<nat>
    var index: nat
    var position: nat
    // The page in view, what its elements show, and the browser.
    var shown: nat
    var doms: map<nat, nat>
    var history: seq<State>
    var at: nat

    ghost function Now(): Browser
      reads this
    {
      Browser(LoadsOf(cache), pending, index, history, at, position)
    }

    ghost predicate Whole()
      reads this
    {
      Core(cache, index, shown, doms) && Stored(history, at, cache, index)
    }

    ghost predicate Valid()
      reads this
    {
      Whole() && Awaited(pending, cache, index) && Reloads(cache, {})
    }

    constructor (version: nat)
      ensures Valid() && cache == map[] && Now() == START
    {
      cache, pending, index, position := map[], None, 0, 0;
      shown, doms := 0, map[0 := version];
      history, at := [State(0, 0, true)], 0;
    }

    /** history.replaceState(IV.computeCurrentState()). */
    method ReplaceState()
      requires at < |history|
      modifies this`history
      ensures history == old(history)[at := State(position, index, true)]
    {
      history := history[at := State(position, index, true)];
    }

    method PushState(state: State)
      requires at < |history|
      modifies this`history, this`at
      ensures at == old(at) + 1 && history == old(history)[..at] + [state]
    {
      history := history[..at + 1] + [state];
      at := at + 1;
    }

    method ApplyUpdatedContent(i: nat)
      requires i in cache && cache[i].content.Some?
      modifies this`cache, this`doms
      ensures if index != i then
                doms == old(doms) && cache == old(cache)[i := old(cache)[i].(contentUpdated := old(cache)[i].dom.Some?)]
              else cache == old(cache) && doms == old(doms)[shown := cache[i].content.value]
    {
      if index != i {
        cache := cache[i := cache[i].(contentUpdated := cache[i].dom.Some?)];
      } else {
        doms := doms[shown := cache[i].content.value];
      }
    }

    /** IV.showDOM. The browser is already where page i is to be shown. */
    method ShowDOM(i: nat, scrolled: bool)
      requires Core(cache, index, shown, doms) && Arriving(history, at, cache, index, i)
              && history[at].scrolled == scrolled
      modifies this
      ensures Whole() && index == i && pending == None && at == old(at) && SameLoads(old(cache), cache, old(index))
      ensures position == if i != old(index) then old(history)[at].position else old(position)
      ensures history == if scrolled then old(history) else old(history)[at := State(position, i, true)]
    {
      ghost var history0, cache0, index0, shown0, doms0 := history, cache, index, shown, doms;
      pending := None;
      if index != i {
        position := history[at].position;
        Swap(i);
        CoreShown(cache0, index0, shown0, doms0, i, cache, shown, doms);
      }
      if !scrolled {
        ReplaceState();
      }
      StoredShown(history0, at, cache0, index0, shown0, doms0, i, cache, shown, doms, position, history);
    }

    method Swap(i: nat)
      requires i != index && i in cache && cache[i].dom.Some? && (cache[i].contentUpdated ==> cache[i].content.Some?)
      modifies this`cache, this`index, this`shown, this`doms
      ensures index == i && Showing(old(cache), old(index), old(shown), old(doms), i, cache, shown, doms)
    {
      var now, was := cache[i].dom, shown;
      if index !in cache {
        cache := cache[index := NOTHING];
      }
      cache := cache[index := cache[index].(dom := Some(was))];
      shown := now.value;
      index := i;
      if cache[i].contentUpdated {
        cache := cache[i := cache[i].(contentUpdated := false)];
        ApplyUpdatedContent(i);
      }
    }

    /** IV.navigateToDOM. */
    method NavigateToDOM(i: nat)
      requires Whole() && (i == index || (i in cache && cache[i].dom.Some?))
      modifies this
      ensures Whole() && SameLoads(old(cache), cache, old(index)) && Now() == Went(old(Now()), i)
    {
      pending := None;
      if index == i {
        ReplaceState();
      } else {
        PushAndShow(i);
      }
    }

    method PushAndShow(i: nat)
      requires Whole() && i != index && i in cache && cache[i].dom.Some?
      modifies this
      ensures Whole() && SameLoads(old(cache), cache, old(index)) && Now() == Went(old(Now()), i)
    {
      ghost var history0, at0, position0, cache0, index0 := history, at, position, cache, index;
      ReplaceState();
      position := position + 1;
      PushState(State(position, i, false));
      ArrivingPushed(history0, at0, cache, index, i, position0, history);
      ShowDOM(i, false);
      SameLoadsMeans(cache0, cache, index0);
    }

    /** IV.navigateToLoaded. */
    method NavigateToLoaded(i: nat)
      requires Whole() && i in cache && (cache[i].dom.Some? || (cache[i].content.Some? && i != index))
      modifies this
      ensures Whole() && SameLoads(old(cache), cache, old(index)) && Now() == Went(old(Now()), i)
    {
      if cache[i].dom.None? {
        ghost var cache0 := cache;
        MakeDOM(i);
        SameLoadsMeans(cache0, cache, index);
      }
      NavigateToDOM(i);
    }

    /** A page's first element, made from its content. */
    method MakeDOM(i: nat)
      requires Whole() && i in cache && cache[i].content.Some? && cache[i].dom.None? && i != index
      modifies this`cache, this`doms
      ensures Whole() && cache == old(cache)[i := old(cache)[i].(dom := Some(|old(doms)|))]
      ensures doms == old(doms)[|old(doms)| := old(cache)[i].content.value]
    {
      ghost var cache0, doms0 := cache, doms;
      var id := |doms|;
      doms := doms[id := cache[i].content.value];
      cache := cache[i := cache[i].(dom := Some(id))];
      CoreMade(cache0, index, shown, doms0, i, cache, doms);
    }

    method LoadPage(i: nat)
      requires Whole() && Reloads(cache, {i}) && (i != index || i in cache || index == 0)
      modifies this`cache
      ensures Whole() && Reloads(cache, {})
      ensures cache == old(cache)[i := (if i in old(cache) then old(cache)[i] else NOTHING).(loading := true)]
    {
      ghost var cache0 := cache;
      if i !in cache {
        cache := cache[i := NOTHING];
      }
      cache := cache[i := cache[i].(loading := true)];
      CoreLoading(cache0, index, shown, doms, i, cache);
    }

    /** IV.reloadPage. */
    method ReloadPage(i: nat)
      requires Whole() && Reloads(cache, {i})
      modifies this`cache
      ensures Whole() && Reloads(cache, {}) && Now() == Reloading(old(Now()), i)
      ensures OnlyPage(old(cache), cache, i) && cache[i].loading
      ensures old(Awaited(pending, cache, index)) ==> Awaited(pending, cache, index)
    {
      ghost var cache0 := cache;
      LookedOf(cache, i);
      if i in cache && cache[i].loading {
        cache := cache[i := cache[i].(reloadPending := true)];
        CoreAsked(cache0, index, shown, doms, i, true, cache);
        StoredLoaded(history, at, cache0, index, i, cache);
      } else {
        LoadPage(i);
      }
      OneLoad(cache0, cache, i);
      OthersStay(cache0, cache, i, pending, index);
    }

    /** IV.navigateTo. A page that has nothing to show yet is waited for. */
    method NavigateTo(i: nat)
      requires Valid()
      modifies this
      ensures Valid() && Now() == Navigated(old(Now()), i)
    {
      ghost var b := Now();
      LookedOf(cache, i);
      if i == 0 && index == 0 {
        NavigateToDOM(index);
        assert Now() == Navigated(b, i);
        return;
      }
      pending := Some(i);
      WentWaiting(b, pending, i);
      if i !in cache {
        ghost var cache0 := cache;
        LoadPage(i);
        OneLoad(cache0, cache, i);
        assert Now() == Navigated(b, i);
      } else if cache[i].dom.Some? {
        NavigateToDOM(i);
        assert Now() == Navigated(b, i);
      } else if cache[i].content.Some? {
        NavigateToLoaded(i);
        assert Now() == Navigated(b, i);
      } else {
        assert Now() == Navigated(b, i);
      }
    }

    /** The page's content has come. */
    method Loaded(i: nat, version: nat)
      requires Valid() && i in cache && cache[i].loading
      modifies this
      ensures Valid() && Now() == Answered(old(Now()), i, version)
    {
      ShowLoaded(i, version);
      ReloadIfAsked(i);
    }

    method ShowLoaded(i: nat, version: nat)
      requires Valid() && i in cache && cache[i].loading
      modifies this
      ensures Whole() && Reloads(cache, {i}) && Awaited(pending, cache, index)
      ensures i in cache && !cache[i].loading && cache[i].content.Some? && Now() == Come(old(Now()), i, version)
    {
      TakeContent(i, version);
      if pending.Some? && pending.value == i {
        NavigateToLoaded(i);
      }
    }

    method TakeContent(i: nat, version: nat)
      requires Valid() && i in cache && cache[i].loading
      modifies this`cache, this`doms
      ensures Whole() && Reloads(cache, {i}) && Now() == Taken(old(Now()), i, version)
      ensures i in cache && !cache[i].loading && cache[i].content.Some?
      ensures if pending == Some(i) then i != index else Awaited(pending, cache, index)
    {
      ghost var cache0, doms0 := cache, doms;
      LookedOf(cache, i);
      StoreContent(i, version);
      CoreLoaded(cache0, index, shown, doms0, i, version, cache, doms);
      StoredLoaded(history, at, cache0, index, i, cache);
      OneLoad(cache0, cache, i);
      OthersStay(cache0, cache, i, pending, index);
    }

    method StoreContent(i: nat, version: nat)
      requires i in cache
      modifies this`cache, this`doms
      ensures var loaded := old(cache)[i].(loading := false, content := Some(version));
              if index != i then doms == old(doms)
                && cache == old(cache)[i := loaded.(contentUpdated := loaded.dom.Some?)]
              else cache == old(cache)[i := loaded] && doms == old(doms)[shown := version]
      ensures OnlyPage(old(cache), cache, i) && cache[i].dom == old(cache)[i].dom
      ensures LoadOf(cache[i]) == Load(false, old(cache)[i].reloadPending, Some(version))
    {
      cache := cache[i := cache[i].(loading := false)];
      cache := cache[i := cache[i].(content := Some(version))];
      ApplyUpdatedContent(i);
    }

    method ReloadIfAsked(i: nat)
      requires Whole() && Reloads(cache, {i}) && Awaited(pending, cache, index)
      requires i in cache && !cache[i].loading && cache[i].content.Some?
      modifies this`cache
      ensures Valid() && Now() == AskedAgain(old(Now()), i)
    {
      LookedOf(cache, i);
      if cache[i].reloadPending {
        ghost var b := Now();
        Unmark(i);
        ReloadPage(i);
        AskedIsReloading(b, i);
      }
    }

    /** entry.reloadPending = false. */
    method Unmark(i: nat)
      requires Whole() && Reloads(cache, {i}) && Awaited(pending, cache, index)
      requires i in cache && !cache[i].loading && cache[i].content.Some?
      modifies this`cache
      ensures Whole() && Reloads(cache, {i}) && Awaited(pending, cache, index) && Now() == Unmarked(old(Now()), i)
    {
      ghost var cache0 := cache;
      LookedOf(cache, i);
      cache := cache[i := cache[i].(reloadPending := false)];
      CoreAsked(cache0, index, shown, doms, i, false, cache);
      StoredLoaded(history, at, cache0, index, i, cache);
      OneLoad(cache0, cache, i);
      OthersStay(cache0, cache, i, pending, index);
    }

    /** The browser goes to another entry of its history, one step or many. */
    method Popstate(k: nat)
      requires Valid() && k < |history|
      modifies this
      ensures Valid() && Now() == Moved(old(Now()), k)
    {
      ghost var cache0, index0 := cache, index;
      at := k;
      ShowDOM(history[k].index, history[k].scrolled);
      SameLoadsMeans(cache0, cache, index0);
    }

    /** With nothing being loaded nothing is waited for. */
    lemma NothingAwaited()
      requires Valid() && forall i :: i in cache ==> !cache[i].loading
      ensures pending == None
    {
    }
  }

  // Whole runs.

  datatype Event = Navigate(i: nat) | Reload(i: nat) | Response(i: nat, version: nat) | Back | Forward | Jump(k: nat)

  /** Where a move through the history leads, if anywhere. */
  function Target(b: Browser, event: Event): Option<nat> {
    var k := match event
             case Back => b.at - 1
             case Forward => b.at + 1
             case Jump(k) => k
             case _ => -1;
    if 0 <= k < |b.history| then Some(k) else None
  }

  function Next(b: Browser, event: Event): (r: Browser)
    requires b.at < |b.history|
    ensures r.at < |r.history|
  {
    match event
    case Navigate(i) => Navigated(b, i)
    case Reload(i) => Reloading(b, i)
    case Response(i, version) => if Looked(b.loads, i).loading then Answered(b, i, version) else b
    case _ =>
      var to := Target(b, event);
      if to.Some? then Moved(b, to.value) else b
  }

  function After(events: seq<Event>): (b: Browser)
    ensures b.at < |b.history|
  {
    if events == [] then START else Next(After(events[..|events| - 1]), events[|events| - 1])
  }

  /** A move through the history to another entry leads to another page than the one shown. */
  predicate TellsApart(b: Browser, event: Event) {
    var to := Target(b, event);
    to.Some? && to.value != b.at ==> b.history[to.value].index != b.index
  }

  /** An event keeps the numbering but for a move to another entry of the page that is shown. */
  lemma NumberedNext(b: Browser, event: Event)
    requires Numbered(b)
    ensures Numbered(Next(b, event)) <==> TellsApart(b, event)
    ensures !event.Jump? ==> Numbered(Next(b, event))
  {
    match event
    case Navigate(i) => NumberedPushed(b, i);
    case Reload(_) =>
    case Response(i, version) => NumberedAnswered(b, i, version);
    case _ =>
      if Target(b, event).Some? {
        NumberedMoved(b, Target(b, event).value);
      }
  }

  lemma NumberedAnswered(b: Browser, i: nat, version: nat)
    requires Numbered(b)
    ensures Numbered(Answered(b, i, version))
  {
    NumberedPushed(Taken(b, i, version), i);
  }

  /** Each move of a run tells the pages apart when it is made. */
  predicate AllTellApart(events: seq<Event>) {
    events == [] ||
    var before := events[..|events| - 1];
    AllTellApart(before) && TellsApart(After(before), events[|events| - 1])
  }

  ghost predicate NumberedThroughout(events: seq<Event>) {
    Numbered(After(events)) && (events == [] || NumberedThroughout(events[..|events| - 1]))
  }

  /** The position is known all the time exactly if no move leads to another entry of the page that is shown. */
  lemma {:induction false} NumberedIfApart(events: seq<Event>)
    ensures NumberedThroughout(events) <==> AllTellApart(events)
  {
    if events != [] {
      var before := events[..|events| - 1];
      NumberedIfApart(before);
      if Numbered(After(before)) {
        NumberedNext(After(before), events[|events| - 1]);
      }
    }
  }

  /** Moving through the history one step at a time, the browser's position is always known. */
  lemma {:induction false} NumberedAfter(events: seq<Event>)
    requires forall i :: 0 <= i < |events| ==> !events[i].Jump?
    ensures Numbered(After(events))
  {
    if events != [] {
      NumberedAfter(events[..|events| - 1]);
      NumberedNext(After(events[..|events| - 1]), events[|events| - 1]);
    }
  }

  // Which request a page's content answers, by the times of the events.

  predicate IsLoading(events: seq<Event>, i: nat) {
    Looked(After(events).loads, i).loading
  }

  /** An answer to the request for page i that is in flight. */
  predicate Answers(before: seq<Event>, event: Event, i: nat) {
    event.Response? && event.i == i && IsLoading(before, i)
  }

  /** When the last request for page i was made, -1 if never: when it began to load, or went on loading at an answer. */
  function LastRequest(events: seq<Event>, i: nat): int {
    if events == [] then -1
    else
      var before, event := events[..|events| - 1], events[|events| - 1];
      if IsLoading(events, i) && (!IsLoading(before, i) || Answers(before, event, i)) then |events| - 1
      else LastRequest(before, i)
  }

  /** It was made by an event for that page, after which the page was loading. */
  lemma {:induction false} LastRequestMeans(events: seq<Event>, i: nat)
    ensures var k := LastRequest(events, i);
            k >= 0 ==>
              && k < |events| && IsLoading(events[..k + 1], i)
              && (events[k] == Navigate(i) || events[k] == Reload(i) || (events[k].Response? && events[k].i == i))
  {
    if events != [] {
      var before, event := events[..|events| - 1], events[|events| - 1];
      LastRequestMeans(before, i);
      LoadNext(After(before), event, i);
      var k := LastRequest(before, i);
      assert k >= 0 ==> before[..k + 1] == events[..k + 1];
      assert events[..|events|] == events;
    }
  }

  /** When the request was made that the content of page i answers. */
  function ContentRequest(events: seq<Event>, i: nat): int {
    if events == [] then -1
    else
      var before, event := events[..|events| - 1], events[|events| - 1];
      if Answers(before, event, i) then LastRequest(before, i) else ContentRequest(before, i)
  }

  function LastReload(events: seq<Event>, i: nat): int {
    if events == [] then -1
    else if events[|events| - 1] == Reload(i) then |events| - 1
    else LastReload(events[..|events| - 1], i)
  }

  function LastAnswer(events: seq<Event>, i: nat): Option<nat> {
    if events == [] then None
    else
      var before, event := events[..|events| - 1], events[|events| - 1];
      if Answers(before, event, i) then Some(event.version) else LastAnswer(before, i)
  }

  /** A reload asked for while a page is loading happens as soon as the page has come. */
  lemma ReloadFollows(b: Browser, i: nat, version: nat)
    requires b.at < |b.history| && Looked(b.loads, i).loading
    ensures var r := Next(Next(b, Reload(i)), Response(i, version));
            Looked(r.loads, i) == Load(true, false, Some(version))
  {
  }

  /** What is known of the requests for a page: none that is done with came before the last reload. */
  ghost predicate Served(events: seq<Event>, i: nat) {
    var load := Looked(After(events).loads, i);
    && (load.again ==> load.loading) && load.content == LastAnswer(events, i)
    && LastReload(events, i) < |events|
    && if load.loading then load.again || LastReload(events, i) <= LastRequest(events, i)
       else LastReload(events, i) <= ContentRequest(events, i)
  }

  function LoadAfter(load: Load, i: nat, event: Event): Load {
    match event
    case Navigate(j) => if j == i && i != 0 && load.content.None? then load.(loading := true) else load
    case Reload(j) =>
      if j != i then load else if load.loading then load.(again := true) else load.(loading := true)
    case Response(j, version) => if j == i && load.loading then Load(load.again, false, Some(version)) else load
    case _ => load
  }

  lemma LoadNext(b: Browser, event: Event, i: nat)
    requires b.at < |b.history|
    ensures Looked(Next(b, event).loads, i) == LoadAfter(Looked(b.loads, i), i, event)
  {
  }

  lemma ServedNext(events: seq<Event>, i: nat, before: seq<Event>, event: Event, load: Load, load': Load)
    requires events != [] && before == events[..|events| - 1] && event == events[|events| - 1] && Served(before, i)
    requires load == Looked(After(before).loads, i) && load' == Looked(After(events).loads, i)
    requires load' == LoadAfter(load, i, event)
    ensures Served(events, i)
  {
    assert Answers(before, event, i) <==> event.Response? && event.i == i && load.loading;
    assert LastReload(events, i) == if event == Reload(i) then |before| else LastReload(before, i);
  }

  lemma {:induction false} AlwaysServed(events: seq<Event>, i: nat)
    ensures Served(events, i)
  {
    if events != [] {
      var before, event := events[..|events| - 1], events[|events| - 1];
      AlwaysServed(before, i);
      LoadNext(After(before), event, i);
      ServedNext(events, i, before, event, Looked(After(before).loads, i), Looked(After(events).loads, i));
    }
  }

  /** No reload is lost: a page that is not loading was last asked for no earlier than its last reload. */
  lemma NoReloadLost(events: seq<Event>, i: nat)
    requires !IsLoading(events, i)
    ensures LastReload(events, i) <= ContentRequest(events, i)
    ensures Looked(After(events).loads, i).content == LastAnswer(events, i)
  {
    AlwaysServed(events, i);
  }

  // The page shown is the one last asked for.

  function Wanted(events: seq<Event>): nat {
    if events == [] then 0
    else
      var before, event := After(events[..|events| - 1]), events[|events| - 1];
      if event.Navigate? then event.i
      else
        var to := Target(before, event);
        if to.Some? then before.history[to.value].index else Wanted(events[..|events| - 1])
  }

  /** Only page 0 and pages that were loaded are shown or in the history. */
  ghost predicate Showable(b: Browser) {
    && (b.index == 0 || Looked(b.loads, b.index).content.Some?)
    && forall k :: 0 <= k < |b.history| ==> b.history[k].index == 0 || Looked(b.loads, b.history[k].index).content.Some?
  }

  ghost predicate Shows(b: Browser, i: nat) {
    if b.pending.None? then b.index == i
    else
      var load := Looked(b.loads, i);
      b.pending == Some(i) && i != b.index && load.loading && load.content.None?
  }

  lemma LoadsGrow(b: Browser, event: Event, i: nat)
    requires b.at < |b.history|
    ensures Looked(b.loads, i).content.Some? ==> Looked(Next(b, event).loads, i).content.Some?
  {
  }

  lemma ShowableNext(b: Browser, event: Event)
    requires b.at < |b.history| && Showable(b)
    ensures Showable(Next(b, event))
  {
    var r := Next(b, event);
    forall i: nat ensures Looked(b.loads, i).content.Some? ==> Looked(r.loads, i).content.Some? {
      LoadsGrow(b, event, i);
    }
  }

  /** It is shown, or waited for because it has never been loaded. */
  lemma {:induction false} WantedIsShown(events: seq<Event>)
    ensures Showable(After(events)) && Shows(After(events), Wanted(events))
  {
    if events != [] {
      WantedIsShown(events[..|events| - 1]);
      ShowableNext(After(events[..|events| - 1]), events[|events| - 1]);
    }
  }

  /** Going to another page and back again is being where one was, and going forward is being there again. */
  lemma BackUndoes(b: Browser, i: nat)
    requires Numbered(b) && i != b.index
    ensures var there := Went(b, i);
            var back := Next(there, Back);
            && there.index == i && there.pending == None && Next(there, Forward) == there
            && back.index == b.index && back.at == b.at && back.position == b.position
            && (forall k :: 0 <= k <= b.at ==> back.history[k].index == b.history[k].index)
            && Next(back, Forward) == there
  {
  }

  method Handle(iv: InstantView, event: Event)
    requires iv.Valid()
    modifies iv
    ensures iv.Valid() && iv.Now() == Next(old(iv.Now()), event)
  {
    match event
    case Navigate(i) => iv.NavigateTo(i);
    case Reload(i) => iv.ReloadPage(i);
    case Response(i, version) =>
      if i in iv.cache && iv.cache[i].loading {
        iv.Loaded(i, version);
      }
    case Back =>
      if iv.at > 0 {
        iv.Popstate(iv.at - 1);
      }
    case Forward =>
      if iv.at + 1 < |iv.history| {
        iv.Popstate(iv.at + 1);
      }
    case Jump(k) =>
      if k < |iv.history| {
        iv.Popstate(k);
      }
  }

  /**
   * Any handlers in any order. The page shown, with the last content that came for it, and the history
   * are those of `After`. The page last asked for is shown or waited for, and no reload is lost. The
   * position is always that of the browser if and only if every move tells the pages apart, as it does if
   * there are no jumps over entries.
   */
  method Run(version: nat, events: seq<Event>) returns (iv: InstantView)
    ensures fresh(iv) && iv.Valid() && iv.Now() == After(events)
    ensures NumberedThroughout(events) <==> AllTellApart(events)
    ensures (forall i :: 0 <= i < |events| ==> !events[i].Jump?) ==> Numbered(iv.Now())
    ensures var content := Looked(After(events).loads, After(events).index).content;
            content.Some? ==> iv.shown in iv.doms && iv.doms[iv.shown] == content.value
    ensures Shows(iv.Now(), Wanted(events))
    ensures forall i :: !IsLoading(events, i) ==> LastReload(events, i) <= ContentRequest(events, i)
    ensures (forall i :: i in iv.cache ==> !iv.cache[i].loading) ==> iv.pending == None
  {
    iv := new InstantView(version);
    for i := 0 to |events|
      invariant iv.Valid() && fresh(iv) && iv.Now() == After(events[..i])
    {
      assert events[..i + 1][..i] == events[..i];
      Handle(iv, events[i]);
    }
    assert events[..|events|] == events;
    NumberedIfApart(events);
    WantedIsShown(events);
    forall i: nat | !IsLoading(events, i) ensures LastReload(events, i) <= ContentRequest(events, i) {
      NoReloadLost(events, i);
    }
    if forall i :: 0 <= i < |events| ==> !events[i].Jump? {
      NumberedAfter(events);
    }
  }

  /** From page 0 to page 1, to page 0 again and two entries back: the page is the same, and `position` stays. */
  method JumpLosesPosition() returns (iv: InstantView)
    ensures iv.Valid() && iv.at == 0 && iv.history[0] == State(0, 0, true) && iv.position == 2
  {
    iv := new InstantView(0);
    iv.NavigateTo(1);
    assert iv.pending == Some(1) && iv.history == [State(0, 0, true)] && iv.history[..0] == [];
    iv.Loaded(1, 0);
    assert iv.history == [State(0, 0, true), State(1, 1, true)];
    assert iv.history[0].index in iv.cache;
    iv.NavigateTo(0);
    iv.Popstate(0);
  }
}
