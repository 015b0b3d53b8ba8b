/** Pending web pages: the due ones are asked for in one request for each channel. */
module WebPages {
  import opened Ascending

  const INT_MAX := 0x7FFF_FFFF

  /** The message a page was seen in. Channel 0 stands for a chat that is not a channel. */
  datatype Item = Item(channel: nat, id: int)

  /** What is known of the pages when they are resolved. */
  datatype Known = Known(till: map<int, int>, items: map<int, Item>, now: int)
  {
    /** Every page has a time, and times are 32-bit and positive. */
    predicate For(p: Pending) {
      p.Keys <= till.Keys && now > 0 && forall page :: page in till ==> till[page] <= INT_MAX
    }

    predicate Due(page: int) {
      page in till && till[page] <= now && page in items
    }

    predicate Later(page: int) {
      page in till && till[page] > now
    }
  }

  type Pending = map<int, int>

  datatype Indexed = Indexed(index: nat, ids: seq<int>)
  datatype Sent = Sent(channel: nat, ids: seq<int>)

  /** The due messages of one channel among the unsent pages, in the order of the pages. */
  function DueItems(pages: seq<int>, p: Pending, known: Known, channel: nat): seq<int> {
    if pages == [] then []
    else
      var last := |pages| - 1;
      var page := pages[last];
      DueItems(pages[..last], p, known, channel)
      + if page in p && p[page] == 0 && known.Due(page) && known.items[page].channel == channel
        then [known.items[page].id] else []
  }

  lemma DueItemsMore(pages: seq<int>, p: Pending, known: Known, channel: nat, page: int)
    ensures DueItems(pages + [page], p, known, channel)
         == DueItems(pages, p, known, channel)
            + if page in p && p[page] == 0 && known.Due(page) && known.items[page].channel == channel
              then [known.items[page].id] else []
  {
    assert (pages + [page])[..|pages|] == pages;
  }

  lemma {:induction false} DueItemIn(pages: seq<int>, p: Pending, known: Known, page: int)
    requires page in pages && page in p && p[page] == 0 && known.Due(page)
    ensures known.items[page].id in DueItems(pages, p, known, known.items[page].channel)
  {
    var last := |pages| - 1;
    if page != pages[last] {
      assert pages == pages[..last] + [pages[last]];
      DueItemIn(pages[..last], p, known, page);
    }
  }

  // Temporary ids: -1 for no channel, -2 - index for the channel first seen as number `index`.

  function Code(channel: nat, channels: map<nat, Indexed>): int
    requires channel != 0 ==> channel in channels
  {
    if channel == 0 then -1 else -2 - channels[channel].index
  }

  /** Indices tell channels apart and are small. */
  ghost predicate Numbered(channels: map<nat, Indexed>) {
    && 0 !in channels
    && (forall c :: c in channels ==> channels[c].index < |channels|)
    && (forall c, d :: c in channels && d in channels && channels[c].index == channels[d].index ==> c == d)
  }

  ghost predicate Coded(p: Pending, q: Pending, seen: set<int>, known: Known, channels: map<nat, Indexed>) {
    && q.Keys == p.Keys
    && forall page :: page in p ==>
         if page in seen && p[page] == 0 && known.Due(page)
         then known.items[page].channel in channels.Keys + {0} && q[page] == Code(known.items[page].channel, channels)
         else q[page] == p[page]
  }

  ghost predicate Listed(p: Pending, pages: seq<int>, known: Known, ids: seq<int>, channels: map<nat, Indexed>) {
    && ids == DueItems(pages, p, known, 0)
    && forall c: nat :: c != 0 ==>
         DueItems(pages, p, known, c) == if c in channels then channels[c].ids else []
  }

  /** The time to the next page that is not due yet. */
  ghost predicate Nearest(p: Pending, seen: set<int>, known: Known, m: int) {
    && m <= INT_MAX
    && (forall page :: page in p && page in seen && p[page] == 0 && known.Later(page) ==>
          m <= known.till[page] - known.now)
    && (m < INT_MAX ==> exists page :: page in p && page in seen && p[page] == 0 && known.Later(page)
                                       && m == known.till[page] - known.now)
  }

  function AddTo(channels: map<nat, Indexed>, channel: nat, id: int): map<nat, Indexed> {
    if channel in channels then channels[channel := channels[channel].(ids := channels[channel].ids + [id])]
    else channels[channel := Indexed(|channels|, [id])]
  }

  lemma NumberedMore(channels: map<nat, Indexed>, channel: nat, id: int)
    requires Numbered(channels) && channel != 0
    ensures Numbered(AddTo(channels, channel, id))
  {
    if channel !in channels {
      assert AddTo(channels, channel, id).Keys == channels.Keys + {channel};
      assert |AddTo(channels, channel, id).Keys| == |channels.Keys| + 1;
    } else {
      assert AddTo(channels, channel, id).Keys == channels.Keys;
    }
  }

  /** What the first pass does with one page. */
  ghost predicate EncodedPage(q: Pending, known: Known, page: int, ids: seq<int>, channels: map<nat, Indexed>, m: int,
                              q': Pending, ids': seq<int>, channels': map<nat, Indexed>, m': int)
    requires page in q
  {
    && (if q[page] == 0 && known.Due(page) then
          var item := known.items[page];
          if item.channel == 0 then ids' == ids + [item.id] && channels' == channels && q' == q[page := -1]
          else ids' == ids && channels' == AddTo(channels, item.channel, item.id)
               && q' == q[page := Code(item.channel, channels')]
        else ids' == ids && channels' == channels && q' == q)
    && m' == if q[page] == 0 && known.Later(page) && known.till[page] - known.now < m
             then known.till[page] - known.now else m
  }

  /** The first pass, with the pages `left` still to come. */
  ghost predicate Encoding(p: Pending, q: Pending, left: set<int>, known: Known, pages: seq<int>,
                           ids: seq<int>, channels: map<nat, Indexed>, m: int)
  {
    && Increasing(pages) && (forall page :: page in pages <==> page in p && page !in left)
    && (forall page, later :: page in pages && later in left ==> page < later)
    && Coded(p, q, p.Keys - left, known, channels) && Listed(p, pages, known, ids, channels)
    && Nearest(p, p.Keys - left, known, m)
    && Numbered(channels) && forall c :: c in channels ==> channels[c].ids != []
  }

  lemma CodedMore(p: Pending, q: Pending, left: set<int>, known: Known, channels: map<nat, Indexed>,
                  page: int, channels': map<nat, Indexed>, q': Pending)
    requires Coded(p, q, p.Keys - left, known, channels) && page in p && page in left
    requires forall c :: c in channels ==> c in channels' && channels'[c].index == channels[c].index
    requires if p[page] == 0 && known.Due(page)
             then known.items[page].channel in channels'.Keys + {0}
                  && q' == q[page := Code(known.items[page].channel, channels')]
             else q' == q
    ensures Coded(p, q', p.Keys - (left - {page}), known, channels')
  {
  }

  lemma ListedMore(p: Pending, pages: seq<int>, known: Known, ids: seq<int>, channels: map<nat, Indexed>,
                   page: int, ids': seq<int>, channels': map<nat, Indexed>)
    requires Listed(p, pages, known, ids, channels) && 0 !in channels && page in p
    requires if p[page] == 0 && known.Due(page) then
               var item := known.items[page];
               if item.channel == 0 then ids' == ids + [item.id] && channels' == channels
               else ids' == ids && channels' == AddTo(channels, item.channel, item.id)
             else ids' == ids && channels' == channels
    ensures Listed(p, pages + [page], known, ids', channels')
  {
    forall c: nat ensures DueItems(pages + [page], p, known, c)
                       == if c == 0 then ids' else if c in channels' then channels'[c].ids else []
    {
      DueItemsMore(pages, p, known, c, page);
    }
  }

  lemma NearestMore(p: Pending, left: set<int>, known: Known, m: int, page: int, m': int)
    requires Nearest(p, p.Keys - left, known, m) && page in p && page in left
    requires m' == if p[page] == 0 && known.Later(page) && known.till[page] - known.now < m
                   then known.till[page] - known.now else m
    ensures Nearest(p, p.Keys - (left - {page}), known, m')
  {
    var seen := p.Keys - left;
    if m' == m && m < INT_MAX {
      var first :| first in p && first in seen && p[first] == 0 && known.Later(first)
        && m == known.till[first] - known.now;
      assert first in p.Keys - (left - {page});
    } else if m' < INT_MAX {
      assert page in p.Keys - (left - {page});
    }
  }

  lemma PagesMore(p: Pending, left: set<int>, pages: seq<int>, page: int)
    requires Increasing(pages) && (forall x :: x in pages <==> x in p && x !in left) && page in p
    requires forall x, later :: x in pages && later in left ==> x < later
    requires page in left && forall x :: x in left ==> page <= x
    ensures var more := pages + [page];
            && Increasing(more) && (forall x :: x in more <==> x in p && x !in left - {page})
            && (forall x, later :: x in more && later in left - {page} ==> x < later)
  {
    IncreasingMore(pages, page);
  }

  lemma NumberedOrSame(q: Pending, known: Known, page: int, ids: seq<int>, channels: map<nat, Indexed>, m: int,
                       q': Pending, ids': seq<int>, channels': map<nat, Indexed>, m': int)
    requires Numbered(channels) && forall c :: c in channels ==> channels[c].ids != []
    requires page in q && EncodedPage(q, known, page, ids, channels, m, q', ids', channels', m')
    ensures Numbered(channels') && forall c :: c in channels' ==> channels'[c].ids != []
    ensures forall c :: c in channels ==> c in channels' && channels'[c].index == channels[c].index
  {
    if channels' != channels {
      NumberedMore(channels, known.items[page].channel, known.items[page].id);
      AddedKeeps(channels, known.items[page].channel, known.items[page].id);
    }
  }

  lemma AddedKeeps(channels: map<nat, Indexed>, channel: nat, id: int)
    requires forall c :: c in channels ==> channels[c].ids != []
    ensures var more := AddTo(channels, channel, id);
            && (forall c :: c in more ==> more[c].ids != [])
            && (forall c :: c in channels ==> c in more && more[c].index == channels[c].index)
  {
  }

  lemma EncodingMore(p: Pending, q: Pending, left: set<int>, known: Known, pages: seq<int>,
                     ids: seq<int>, channels: map<nat, Indexed>, m: int, page: int,
                     q': Pending, ids': seq<int>, channels': map<nat, Indexed>, m': int)
    requires Encoding(p, q, left, known, pages, ids, channels, m)
    requires page in p && page in left && (forall x :: x in left ==> page <= x) && p[page] >= 0
    requires EncodedPage(q, known, page, ids, channels, m, q', ids', channels', m')
    ensures Encoding(p, q', left - {page}, known, pages + [page], ids', channels', m')
  {
    assert q[page] == p[page];
    NumberedOrSame(q, known, page, ids, channels, m, q', ids', channels', m');
    PagesMore(p, left, pages, page);
    CodedMore(p, q, left, known, channels, page, channels', q');
    ListedMore(p, pages, known, ids, channels, page, ids', channels');
    NearestMore(p, left, known, m, page, m');
  }

  // Requests.

  /** The requests sent after `lastId`: one for each list, that of a channel or that of no channel. */
  ghost predicate Requested(inFlight: map<int, Sent>, lastId: nat, inFlight': map<int, Sent>, lastId': nat,
                            ids: seq<int>, channels: map<nat, Indexed>, left: set<int>,
                            requestId: nat, reqsByIndex: seq<nat>)
    requires Numbered(channels) && |reqsByIndex| == |channels|
  {
    && lastId <= lastId'
    && (forall r :: r in inFlight ==> r in inFlight' && inFlight'[r] == inFlight[r])
    && (forall r :: r in inFlight' && r !in inFlight ==>
          && lastId < r <= lastId'
          && (if inFlight'[r].channel == 0 then r == requestId
              else inFlight'[r].channel in channels && inFlight'[r].channel !in left
                   && r == reqsByIndex[channels[inFlight'[r].channel].index]))
    && (if ids == [] then requestId == 0
        else requestId in inFlight' && requestId > lastId && inFlight'[requestId] == Sent(0, ids))
    && (forall c :: c in channels && c !in left ==>
          var r := reqsByIndex[channels[c].index];
          r in inFlight' && r > lastId && inFlight'[r] == Sent(c, channels[c].ids))
  }

  /**
   * What resolving does. The pages are gone through in ascending order; each due page is given the
   * id of the one new request for its channel, which asks for the due messages of that channel.
   */
  ghost predicate Resolved(p: Pending, known: Known, inFlight: map<int, Sent>, lastId: nat, pages: seq<int>,
                           q: Pending, inFlight': map<int, Sent>, lastId': nat)
  {
    && Increasing(pages) && (forall page :: page in pages <==> page in p)
    && lastId <= lastId' && q.Keys == p.Keys
    && (forall page :: page in p ==>
          if p[page] == 0 && known.Due(page)
          then q[page] > lastId && q[page] in inFlight' && inFlight'[q[page]].channel == known.items[page].channel
          else q[page] == p[page])
    && (forall r :: r in inFlight ==> r in inFlight' && inFlight'[r] == inFlight[r])
    && (forall r :: r in inFlight' && r !in inFlight ==>
          && lastId < r <= lastId'
          && inFlight'[r].ids == DueItems(pages, p, known, inFlight'[r].channel) && inFlight'[r].ids != [])
    && (forall r, other :: r in inFlight' && r !in inFlight && other in inFlight' && other !in inFlight ==>
          inFlight'[r].channel == inFlight'[other].channel ==> r == other)
  }

  /** So the request a due page waits for asks for its message. */
  lemma AskedFor(p: Pending, known: Known, inFlight: map<int, Sent>, lastId: nat, pages: seq<int>,
                 q: Pending, inFlight': map<int, Sent>, lastId': nat, page: int)
    requires Resolved(p, known, inFlight, lastId, pages, q, inFlight', lastId')
    requires forall r :: r in inFlight ==> r <= lastId
    requires page in p && p[page] == 0 && known.Due(page)
    ensures q[page] in inFlight' && known.items[page].id in inFlight'[q[page]].ids
    ensures forall r :: r in inFlight' && r !in inFlight && r != q[page] ==>
              inFlight'[r].channel != known.items[page].channel
  {
    DueItemIn(pages, p, known, page);
  }

  lemma RequestedMore(inFlight: map<int, Sent>, lastId: nat, sent: map<int, Sent>, last: nat,
                      ids: seq<int>, channels: map<nat, Indexed>, left: set<int>, requestId: nat, reqsByIndex: seq<nat>,
                      channel: nat, inFlight': map<int, Sent>, reqsByIndex': seq<nat>)
    requires Numbered(channels) && |reqsByIndex| == |channels|
    requires Requested(inFlight, lastId, sent, last, ids, channels, left, requestId, reqsByIndex)
    requires Fresh(sent, last)
    requires channel in channels && channel in left
    requires inFlight' == sent[last + 1 := Sent(channel, channels[channel].ids)]
    requires reqsByIndex' == reqsByIndex[channels[channel].index := last + 1]
    ensures Requested(inFlight, lastId, inFlight', last + 1, ids, channels, left - {channel}, requestId, reqsByIndex')
  {
  }

  /** A due page is given a request for its channel: this is where its temporary id leads. */
  lemma DueDecoded(p: Pending, known: Known, inFlight: map<int, Sent>, lastId: nat, pages: seq<int>,
                   coded: Pending, ids: seq<int>, channels: map<nat, Indexed>,
                   inFlight': map<int, Sent>, lastId': nat, requestId: nat, reqsByIndex: seq<nat>, page: int)
    requires Coded(p, coded, p.Keys, known, channels) && Listed(p, pages, known, ids, channels)
    requires Numbered(channels) && |reqsByIndex| == |channels|
    requires Requested(inFlight, lastId, inFlight', lastId', ids, channels, {}, requestId, reqsByIndex)
    requires page in pages && page in p && p[page] == 0 && known.Due(page)
    ensures var r := Decoded(coded[page], requestId, reqsByIndex);
            r > lastId && r in inFlight' && inFlight'[r].channel == known.items[page].channel
  {
    var channel := known.items[page].channel;
    assert coded[page] == Code(channel, channels);
    DueItemIn(pages, p, known, page);
    if channel == 0 {
      assert ids != [];
    } else {
      CodeDecoded(channels, channel, requestId, reqsByIndex);
    }
  }

  lemma CodeDecoded(channels: map<nat, Indexed>, channel: nat, requestId: nat, reqsByIndex: seq<nat>)
    requires Numbered(channels) && |reqsByIndex| == |channels| && channel in channels
    ensures Decoded(Code(channel, channels), requestId, reqsByIndex) == reqsByIndex[channels[channel].index]
  {
  }

  lemma NewRequests(p: Pending, known: Known, pages: seq<int>, inFlight: map<int, Sent>, lastId: nat,
                    ids: seq<int>, channels: map<nat, Indexed>,
                    inFlight': map<int, Sent>, lastId': nat, requestId: nat, reqsByIndex: seq<nat>, r: int)
    requires Listed(p, pages, known, ids, channels)
    requires Numbered(channels) && |reqsByIndex| == |channels|
    requires Requested(inFlight, lastId, inFlight', lastId', ids, channels, {}, requestId, reqsByIndex)
    requires forall c :: c in channels ==> channels[c].ids != []
    requires r in inFlight' && r !in inFlight
    ensures lastId < r <= lastId'
    ensures inFlight'[r].ids == DueItems(pages, p, known, inFlight'[r].channel) && inFlight'[r].ids != []
    ensures r == if inFlight'[r].channel == 0 then requestId
                 else if inFlight'[r].channel in channels then reqsByIndex[channels[inFlight'[r].channel].index] else 0
  {
  }

  lemma ResolvedByCode(p: Pending, known: Known, inFlight: map<int, Sent>, lastId: nat, pages: seq<int>,
                       coded: Pending, ids: seq<int>, channels: map<nat, Indexed>, m: int,
                       inFlight': map<int, Sent>, lastId': nat, requestId: nat, reqsByIndex: seq<nat>, q: Pending)
    requires forall page :: page in p ==> p[page] >= 0
    requires Encoding(p, coded, {}, known, pages, ids, channels, m) && |reqsByIndex| == |channels|
    requires Requested(inFlight, lastId, inFlight', lastId', ids, channels, {}, requestId, reqsByIndex)
    requires q.Keys == p.Keys
    requires forall page :: page in p ==> q[page] == Decoded(coded[page], requestId, reqsByIndex)
    ensures Resolved(p, known, inFlight, lastId, pages, q, inFlight', lastId')
  {
    assert p.Keys - {} == p.Keys;
    forall page | page in p && p[page] == 0 && known.Due(page)
      ensures q[page] > lastId && q[page] in inFlight' && inFlight'[q[page]].channel == known.items[page].channel
    {
      DueDecoded(p, known, inFlight, lastId, pages, coded, ids, channels, inFlight', lastId', requestId, reqsByIndex,
                 page);
    }
    forall r | r in inFlight' && r !in inFlight
      ensures lastId < r <= lastId'
      ensures inFlight'[r].ids == DueItems(pages, p, known, inFlight'[r].channel) && inFlight'[r].ids != []
      ensures r == if inFlight'[r].channel == 0 then requestId
                   else if inFlight'[r].channel in channels then reqsByIndex[channels[inFlight'[r].channel].index]
                     else 0
    {
      NewRequests(p, known, pages, inFlight, lastId, ids, channels, inFlight', lastId', requestId, reqsByIndex, r);
    }
  }

  lemma NothingRequested(inFlight: map<int, Sent>, lastId: nat, ids: seq<int>, channels: map<nat, Indexed>,
                         inFlight': map<int, Sent>, lastId': nat, requestId: nat, reqsByIndex: seq<nat>)
    requires Numbered(channels) && |reqsByIndex| == |channels| && Fresh(inFlight, lastId)
    requires if ids == [] then inFlight' == inFlight && lastId' == lastId && requestId == 0
             else inFlight' == inFlight[lastId + 1 := Sent(0, ids)] && lastId' == requestId == lastId + 1
    ensures Requested(inFlight, lastId, inFlight', lastId', ids, channels, channels.Keys, requestId, reqsByIndex)
  {
  }

  /** Temporary ids never lead out of range, and there is one only where a request was sent. */
  lemma CodesInRange(p: Pending, q: Pending, known: Known, pages: seq<int>, ids: seq<int>,
                     channels: map<nat, Indexed>, m: int)
    requires (forall page :: page in p ==> p[page] >= 0) && Encoding(p, q, {}, known, pages, ids, channels, m)
    ensures forall page :: page in q && q[page] < 0 ==>
              if q[page] == -1 then ids != [] else 0 <= -q[page] - 2 < |channels|
  {
    forall page | page in q && q[page] < 0 ensures if q[page] == -1 then ids != [] else 0 <= -q[page] - 2 < |channels| {
      assert page in p.Keys - {};
      assert p[page] == 0 && known.Due(page);
      DueItemIn(pages, p, known, page);
    }
  }

  function Decoded(code: int, requestId: nat, reqsByIndex: seq<nat>): int {
    if code >= 0 then code
    else if code == -1 then requestId
    else if -code - 2 < |reqsByIndex| then reqsByIndex[-code - 2]
    else code
  }

  ghost predicate Fresh(inFlight: map<int, Sent>, lastId: nat) {
    forall r :: r in inFlight ==> 0 < r <= lastId
  }

  /**
   * No temporary id is left behind. An unsent page waits for the timer, unless it was skipped: it was
   * due when no message showed it. A sent one waits for a request in flight, unless it is stranded:
   * its request has failed.
   */
  ghost predicate Waiting(p: Pending, timer: Timer, inFlight: map<int, Sent>, lastId: nat,
                          skipped: set<int>, stranded: set<int>)
  {
    && skipped <= p.Keys && stranded <= p.Keys
    && forall page :: page in p ==>
         if p[page] == 0 then page !in stranded && (timer.On? || page in skipped)
         else 0 < p[page] <= lastId && page !in skipped && (p[page] in inFlight <==> page !in stranded)
  }

  /** A page that stays unsent is not due, and then the timer is set, or it was due without a message. */
  lemma StillWaiting(p: Pending, timer: Timer, inFlight: map<int, Sent>, lastId: nat, skipped: set<int>,
                     stranded: set<int>, known: Known, pages: seq<int>, m: int, q: Pending, timer': Timer,
                     inFlight': map<int, Sent>, lastId': nat, skipped': set<int>)
    requires Waiting(p, timer, inFlight, lastId, skipped, stranded)
    requires known.For(p) && Nearest(p, p.Keys, known, m)
    requires Resolved(p, known, inFlight, lastId, pages, q, inFlight', lastId')
    requires Fresh(inFlight', lastId')
    requires m < INT_MAX ==> timer'.On?
    requires skipped' == set page | page in p && p[page] == 0 && !known.Later(page) && !known.Due(page)
    ensures Waiting(q, timer', inFlight', lastId', skipped', stranded)
  {
  }

  /** The pages whose stored id is that of the request. */
  ghost function PagesOf(p: Pending, req: int): set<int> {
    set page | page in p && p[page] == req
  }

  lemma StrandedMore(p: Pending, timer: Timer, inFlight: map<int, Sent>, lastId: nat, skipped: set<int>,
                     stranded: set<int>, req: int)
    requires Waiting(p, timer, inFlight, lastId, skipped, stranded) && Fresh(inFlight, lastId) && req in inFlight
    ensures Waiting(p, timer, inFlight - {req}, lastId, skipped, stranded + PagesOf(p, req))
  {
  }

  /** The pages that do not wait for an answer, and those left to look at. */
  function TakenBut(p: Pending, req: int, left: set<int>): Pending {
    map page | page in p && (page in left || p[page] != req) :: p[page]
  }

  function FailedBut(p: Pending, req: int, till: map<int, int>, left: set<int>): set<int>
    requires p.Keys <= till.Keys
  {
    set page | page in p && page !in left && p[page] == req && till[page] > 0
  }

  lemma TakenMore(p: Pending, req: int, till: map<int, int>, left: set<int>, page: int)
    requires p.Keys <= till.Keys && page in p && page in left
    ensures page in TakenBut(p, req, left) && TakenBut(p, req, left)[page] == p[page]
    ensures TakenBut(p, req, left - {page})
         == if p[page] == req then TakenBut(p, req, left) - {page} else TakenBut(p, req, left)
    ensures FailedBut(p, req, till, left - {page})
         == if p[page] == req && till[page] > 0 then FailedBut(p, req, till, left) + {page}
            else FailedBut(p, req, till, left)
  {
  }

  /** An answered request takes its pages with it; none of them was skipped or stranded. */
  lemma WaitingTaken(p: Pending, timer: Timer, inFlight: map<int, Sent>, lastId: nat, skipped: set<int>,
                     stranded: set<int>, req: int, q: Pending)
    requires Waiting(p, timer, inFlight, lastId, skipped, stranded) && Fresh(inFlight, lastId) && req in inFlight
    requires q == map page | page in p && p[page] != req :: p[page]
    ensures Waiting(q, timer, inFlight - {req}, lastId, skipped, stranded)
  {
    forall page | page in skipped + stranded ensures page in q {
      assert page in p;
    }
  }

  class PendingPages {
    var pending: Pending
    var timer: Timer
    var inFlight: map<int, Sent>
    var lastId: nat
    ghost var skipped: set<int>
    ghost var stranded: set<int>

    ghost predicate Valid()
      reads this
    {
      Fresh(inFlight, lastId) && Waiting(pending, timer, inFlight, lastId, skipped, stranded)
    }

    constructor ()
      ensures Valid() && pending == map[] && inFlight == map[] && timer.Off? && stranded == {}
    {
      pending, timer, inFlight, lastId, skipped, stranded := map[], Off, map[], 0, {}, {};
    }

    /** First pass: temporary ids, and the messages of each channel. */
    method Encode(known: Known) returns (ids: seq<int>, channels: map<nat, Indexed>, m: int, ghost pages: seq<int>)
      requires (forall page :: page in pending ==> pending[page] >= 0) && known.For(pending)
      modifies this`pending
      ensures Encoding(old(pending), pending, {}, known, pages, ids, channels, m)
    {
      ghost var p := pending;
      ids, channels, m, pages := [], map[], INT_MAX, [];
      var left := pending.Keys;
      while |left| > 0
        invariant left <= p.Keys && Encoding(p, pending, left, known, pages, ids, channels, m)
        decreases |left|
      {
        var page := Least(left);
        ghost var ids0, channels0, pending0, m0 := ids, channels, pending, m;
        ids, channels, m := EncodePage(known, page, ids, channels, m);
        EncodingMore(p, pending0, left, known, pages, ids0, channels0, m0, page, pending, ids, channels, m);
        pages, left := pages + [page], left - {page};
      }
      assert left == {};
    }

    method EncodePage(known: Known, page: int, ids: seq<int>, channels: map<nat, Indexed>, m: int)
      returns (ids': seq<int>, channels': map<nat, Indexed>, m': int)
      requires page in pending && pending[page] >= 0 && page in known.till
      modifies this`pending
      ensures EncodedPage(old(pending), known, page, ids, channels, m, pending, ids', channels', m')
    {
      ids', channels', m' := ids, channels, m;
      if pending[page] > 0 {
        return;
      }
      if known.till[page] <= known.now {
        if page in known.items {
          var item := known.items[page];
          if item.channel != 0 {
            if item.channel !in channels {
              channels' := channels[item.channel := Indexed(|channels|, [item.id])];
            } else {
              var listed := channels[item.channel];
              channels' := channels[item.channel := listed.(ids := listed.ids + [item.id])];
            }
            pending := pending[page := -2 - channels'[item.channel].index];
          } else {
            ids' := ids + [item.id];
            pending := pending[page := -1];
          }
        }
      } else {
        m' := if known.till[page] - known.now < m then known.till[page] - known.now else m;
      }
    }

    /** Second pass: the requests, that for no channel first. */
    method SendAll(ids: seq<int>, channels: map<nat, Indexed>) returns (requestId: nat, reqsByIndex: seq<nat>)
      requires Numbered(channels) && Fresh(inFlight, lastId)
      modifies this`inFlight, this`lastId
      ensures Fresh(inFlight, lastId)
      ensures |reqsByIndex| == |channels| && (ids != [] ==> requestId > 0)
      ensures Requested(old(inFlight), old(lastId), inFlight, lastId, ids, channels, {}, requestId, reqsByIndex)
    {
      ghost var inFlight0, lastId0 := inFlight, lastId;
      requestId, reqsByIndex := 0, seq(|channels|, i => 0);
      if ids != [] {
        lastId := lastId + 1;
        inFlight, requestId := inFlight[lastId := Sent(0, ids)], lastId;
      }
      NothingRequested(inFlight0, lastId0, ids, channels, inFlight, lastId, requestId, reqsByIndex);
      var left: set<int> := channels.Keys;
      while |left| > 0
        invariant left <= channels.Keys && |reqsByIndex| == |channels|
        invariant Fresh(inFlight, lastId)
        invariant Requested(inFlight0, lastId0, inFlight, lastId, ids, channels, left, requestId, reqsByIndex)
        decreases |left|
      {
        var channel: nat := Least(left);
        ghost var sent, last, reqs := inFlight, lastId, reqsByIndex;
        reqsByIndex := SendChannel(channel, channels[channel], reqsByIndex);
        RequestedMore(inFlight0, lastId0, sent, last, ids, channels, left, requestId, reqs, channel, inFlight,
                      reqsByIndex);
        left := left - {channel};
      }
      assert left == {};
    }

    method SendChannel(channel: nat, messages: Indexed, reqsByIndex: seq<nat>) returns (reqs: seq<nat>)
      requires messages.index < |reqsByIndex| && Fresh(inFlight, lastId)
      modifies this`inFlight, this`lastId
      ensures lastId == old(lastId) + 1 && Fresh(inFlight, lastId)
      ensures inFlight == old(inFlight)[lastId := Sent(channel, messages.ids)]
      ensures reqs == reqsByIndex[messages.index := lastId]
    {
      lastId := lastId + 1;
      inFlight := inFlight[lastId := Sent(channel, messages.ids)];
      reqs := reqsByIndex[messages.index := lastId];
    }

    /** Third pass: the temporary ids give way to those of the requests. */
    method Decode(requestId: nat, reqsByIndex: seq<nat>)
      requires forall page :: page in pending && pending[page] < 0 ==>
                 if pending[page] == -1 then requestId > 0 else 0 <= -pending[page] - 2 < |reqsByIndex|
      modifies this`pending
      ensures pending.Keys == old(pending).Keys
      ensures forall page :: page in pending ==> pending[page] == Decoded(old(pending)[page], requestId, reqsByIndex)
    {
      if requestId == 0 && reqsByIndex == [] {
        return;
      }
      ghost var q := pending;
      var left := pending.Keys;
      while |left| > 0
        invariant left <= q.Keys == pending.Keys
        invariant forall page :: page in q ==>
                    pending[page] == if page in left then q[page] else Decoded(q[page], requestId, reqsByIndex)
        decreases |left|
      {
        var page := Least(left);
        left := left - {page};
        var code := pending[page];
        if code == -1 {
          pending := pending[page := requestId];
        } else if code < 0 {
          pending := pending[page := reqsByIndex[-code - 2]];
        }
      }
    }

    method ResolvePages(known: Known) returns (m: int, ghost pages: seq<int>)
      requires Fresh(inFlight, lastId) && known.For(pending)
      requires forall page :: page in pending ==> pending[page] >= 0
      modifies this`pending, this`inFlight, this`lastId
      ensures Fresh(inFlight, lastId)
      ensures Resolved(old(pending), known, old(inFlight), old(lastId), pages, pending, inFlight, lastId)
      ensures Nearest(old(pending), old(pending).Keys, known, m)
    {
      ghost var p, inFlight0, lastId0 := pending, inFlight, lastId;
      var ids, channels;
      ids, channels, m, pages := Encode(known);
      ghost var coded := pending;
      CodesInRange(p, coded, known, pages, ids, channels, m);
      var requestId, reqsByIndex := SendAll(ids, channels);
      Decode(requestId, reqsByIndex);
      ResolvedByCode(p, known, inFlight0, lastId0, pages, coded, ids, channels, m,
                     inFlight, lastId, requestId, reqsByIndex, pending);
      assert p.Keys - {} == p.Keys;
    }

    /** The timer fires. */
    method ResolveWebPages(known: Known) returns (ghost pages: seq<int>, ghost nearest: int)
      requires Valid() && timer.On? && known.For(pending)
      modifies this
      ensures Valid()
      ensures Resolved(old(pending), known, old(inFlight), old(lastId), pages, pending, inFlight, lastId)
      ensures Nearest(old(pending), old(pending).Keys, known, nearest)
      ensures timer == if nearest < INT_MAX then On((if nearest < 86400 then nearest else 86400) * 1000) else Off
      ensures skipped == set page | page in old(pending) && old(pending)[page] == 0 && !known.Later(page)
              && !known.Due(page)
      ensures stranded == old(stranded)
      ensures inFlight == map[] && timer.Off? ==> pending.Keys == skipped + stranded
    {
      ghost var p, timer0, inFlight0, lastId0, skipped0 := pending, timer, inFlight, lastId, skipped;
      timer := Off;
      var m;
      m, pages := ResolvePages(known);
      nearest := m;
      if m < INT_MAX {
        timer := On((if m < 86400 then m else 86400) * 1000);
      }
      skipped := set page | page in p && p[page] == 0 && !known.Later(page) && !known.Due(page);
      StillWaiting(p, timer0, inFlight0, lastId0, skipped0, stranded, known, pages, m,
                   pending, timer, inFlight, lastId, skipped);
      if inFlight == map[] && timer.Off? {
        AtRest();
      }
    }

    method RequestWebPageDelayed(page: int, till: int, failed: bool, now: int, remaining: int)
      requires Valid()
      modifies this`pending, this`timer
      ensures Valid()
      ensures if failed || till == 0 then pending == old(pending) && timer == old(timer)
              else && pending == (if page in old(pending) then old(pending) else old(pending)[page := 0])
                   && timer == if old(timer).Off? || (till - now) * 1000 <= remaining
                               then On((if till < now then 0 else (till - now) * 1000) + 1) else old(timer)
    {
      if failed || till == 0 {
        return;
      }
      if page !in pending {
        pending := pending[page := 0];
      }
      var left := (till - now) * 1000;
      if timer.Off? || left <= remaining {
        timer := On((if left < 0 then 0 else left) + 1);
      }
    }

    method ClearWebPageRequest(page: int)
      requires Valid()
      modifies this`pending, this`timer, this`skipped, this`stranded
      ensures Valid() && pending == old(pending) - {page}
      ensures skipped == old(skipped) - {page} && stranded == old(stranded) - {page}
      ensures timer == if pending == map[] then Off else old(timer)
    {
      pending := pending - {page};
      skipped, stranded := skipped - {page}, stranded - {page};
      if pending == map[] && timer.On? {
        timer := Off;
      }
    }

    method ClearWebPageRequests()
      requires Valid()
      modifies this`pending, this`timer, this`skipped, this`stranded
      ensures Valid() && pending == map[] && timer.Off? && skipped == stranded == {}
    {
      pending, timer, skipped, stranded := map[], Off, {}, {};
    }

    /** An answer: the pages that waited for it are done with; those still without a time to try again have failed. */
    method GotWebPages(req: int, till: map<int, int>) returns (failed: set<int>)
      requires Valid() && req in inFlight && pending.Keys <= till.Keys
      modifies this`pending, this`inFlight
      ensures Valid() && inFlight == old(inFlight) - {req}
      ensures pending == map page | page in old(pending) && old(pending)[page] != req :: old(pending)[page]
      ensures failed == set page | page in old(pending) && old(pending)[page] == req && till[page] > 0
    {
      ghost var p, inFlight0 := pending, inFlight;
      failed := TakePages(req, till);
      inFlight := inFlight - {req};
      WaitingTaken(p, timer, inFlight0, lastId, skipped, stranded, req, pending);
    }

    method TakePages(req: int, till: map<int, int>) returns (failed: set<int>)
      requires pending.Keys <= till.Keys
      modifies this`pending
      ensures pending == map page | page in old(pending) && old(pending)[page] != req :: old(pending)[page]
      ensures failed == set page | page in old(pending) && old(pending)[page] == req && till[page] > 0
    {
      ghost var p := pending;
      failed := {};
      var left := pending.Keys;
      assert pending == TakenBut(p, req, left) && failed == FailedBut(p, req, till, left);
      while |left| > 0
        invariant left <= p.Keys && pending == TakenBut(p, req, left) && failed == FailedBut(p, req, till, left)
        decreases |left|
      {
        var page := Least(left);
        TakenMore(p, req, till, left, page);
        left := left - {page};
        if pending[page] == req {
          if till[page] > 0 {
            failed := failed + {page};
          }
          pending := pending - {page};
        }
      }
      assert left == {};
    }

    /** A failure, which nobody hears of: the pages keep the id of a request that will not be answered. */
    method Fail(req: int)
      requires Valid() && req in inFlight
      modifies this`inFlight, this`stranded
      ensures Valid() && inFlight == old(inFlight) - {req} && stranded == old(stranded) + PagesOf(pending, req)
    {
      StrandedMore(pending, timer, inFlight, lastId, skipped, stranded, req);
      inFlight := inFlight - {req};
      stranded := stranded + PagesOf(pending, req);
    }

    /** At rest exactly the pages are left that were due when no message showed them, or whose request has failed. */
    lemma AtRest()
      requires Valid() && inFlight == map[] && timer.Off?
      ensures pending.Keys == skipped + stranded
    {
      forall page | page in pending ensures page in skipped + stranded {
        assert pending[page] !in inFlight;
      }
    }
  }

  datatype Timer = Off | On(delay: int)

  // Whole runs.

  datatype Event =
    | Request(page: int, till: int, failed: bool, now: int, remaining: int)
    | ClearPage(page: int)
    | ClearAll
    | TimerFires(known: Known)
    | Response(req: int, times: map<int, int>)
    | Failure(req: int)

  /** The pages asked for at some time. */
  function EverPending(events: seq<Event>): set<int> {
    if events == [] then {}
    else
      var event := events[|events| - 1];
      EverPending(events[..|events| - 1]) + if Joins(event) then {event.page} else {}
  }

  /** Those of them that nothing since, no clearing and no answer, can have taken away. */
  function SurelyPending(events: seq<Event>): set<int> {
    if events == [] then {}
    else
      var before, event := SurelyPending(events[..|events| - 1]), events[|events| - 1];
      match event
      case Request(page, _, _, _, _) => if Joins(event) then before + {page} else before
      case ClearPage(page) => before - {page}
      case ClearAll => {}
      case TimerFires(_) => before
      case Response(_, _) => {}
      case Failure(_) => before
  }

  predicate Joins(event: Event) {
    event.Request? && !event.failed && event.till != 0
  }

  method Handle(p: PendingPages, event: Event)
    requires p.Valid()
    modifies p
    ensures p.Valid() && p.pending.Keys <= old(p.pending).Keys + if Joins(event) then {event.page} else {}
    ensures Joins(event) ==> event.page in p.pending
    ensures event.Request? || event.TimerFires? || event.Failure? ==> old(p.pending).Keys <= p.pending.Keys
    ensures event.Failure? && event.req in old(p.inFlight) ==>
              p.stranded == old(p.stranded) + PagesOf(p.pending, event.req)
    ensures !event.Failure? ==> p.stranded == old(p.stranded) * p.pending.Keys
    ensures event.ClearPage? ==> p.pending == old(p.pending) - {event.page}
  {
    match event
    case Request(page, till, failed, now, remaining) =>
      p.RequestWebPageDelayed(page, till, failed, now, remaining);
    case ClearPage(page) =>
      p.ClearWebPageRequest(page);
    case ClearAll =>
      p.ClearWebPageRequests();
    case TimerFires(known) =>
      if p.timer.On? && known.For(p.pending) {
        var _, _ := p.ResolveWebPages(known);
      }
    case Response(req, times) =>
      if req in p.inFlight && p.pending.Keys <= times.Keys {
        var _ := p.GotWebPages(req, times);
      }
    case Failure(req) =>
      if req in p.inFlight {
        p.Fail(req);
      }
  }

  /** Any requests, timer calls, answers and failures, in any order, whatever is known of the pages each time. */
  method Run(events: seq<Event>) returns (p: PendingPages)
    ensures fresh(p) && p.Valid()
    ensures SurelyPending(events) <= p.pending.Keys <= EverPending(events)
    ensures p.inFlight == map[] && p.timer.Off? ==> p.pending.Keys == p.skipped + p.stranded
    ensures (forall k :: 0 <= k < |events| ==> !events[k].Failure?) ==> p.stranded == {}
  {
    p := new PendingPages();
    for i := 0 to |events|
      invariant fresh(p) && p.Valid()
      invariant (forall k :: 0 <= k < i ==> !events[k].Failure?) ==> p.stranded == {}
      invariant SurelyPending(events[..i]) <= p.pending.Keys <= EverPending(events[..i])
    {
      assert events[..i + 1][..i] == events[..i];
      Handle(p, events[i]);
    }
    assert events[..|events|] == events;
    if p.inFlight == map[] && p.timer.Off? {
      p.AtRest();
    }
  }

  /** A page that is due when no message shows it stays, and nothing is left that would look at it again. */
  method LeftWaiting(page: int, till: int, now: int) returns (p: PendingPages)
    requires 0 < till <= now <= INT_MAX
    ensures p.Valid() && p.pending == map[page := 0] && p.inFlight == map[] && p.timer.Off? && p.skipped == {page}
  {
    p := new PendingPages();
    p.RequestWebPageDelayed(page, till, false, 0, 0);
    var known := Known(map[page := till], map[], now);
    var pages, m := p.ResolveWebPages(known);
    forall r | r in p.inFlight ensures false {
      assert DueItems(pages, map[page := 0], known, p.inFlight[r].channel) == [] by {
        NoItems(pages, map[page := 0], known, p.inFlight[r].channel);
      }
    }
  }

  lemma {:induction false} NoItems(pages: seq<int>, p: Pending, known: Known, channel: nat)
    requires known.items == map[]
    ensures DueItems(pages, p, known, channel) == []
  {
    if pages != [] {
      NoItems(pages[..|pages| - 1], p, known, channel);
    }
  }

  /** One page, asked for in one request. */
  method OneSent(page: int, till: int, now: int, item: Item) returns (p: PendingPages, req: int)
    requires 0 < till <= now <= INT_MAX
    ensures fresh(p) && p.Valid() && p.pending == map[page := req] && p.inFlight.Keys == {req} && p.timer.Off?
    ensures p.stranded == {}
  {
    p := new PendingPages();
    p.RequestWebPageDelayed(page, till, false, 0, 0);
    var known := Known(map[page := till], map[page := item], now);
    var pages, m := p.ResolveWebPages(known);
    req := p.pending[page];
    assert p.pending == map[page := req] && req in p.inFlight;
    forall r | r in p.inFlight ensures r == req {
      OnlyChannel(pages, map[page := 0], known, p.inFlight[r].channel);
    }
  }

  /** With one item there are due messages of one channel only. */
  lemma {:induction false} OnlyChannel(pages: seq<int>, p: Pending, known: Known, channel: nat)
    requires DueItems(pages, p, known, channel) != []
    requires forall page, other :: page in known.items && other in known.items ==> page == other
    ensures forall page :: page in known.items ==> known.items[page].channel == channel
  {
    var last := |pages| - 1;
    if DueItems(pages[..last], p, known, channel) != [] {
      OnlyChannel(pages[..last], p, known, channel);
    }
  }

  /**
   * Its request fails: the page stays, with an id that means nothing any more, also when it is asked
   * for and the timer fires again.
   */
  method LeftStranded(page: int, till: int, now: int, item: Item) returns (p: PendingPages, req: int)
    requires 0 < till <= now <= INT_MAX
    ensures p.Valid() && p.pending == map[page := req] && req > 0 && p.inFlight == map[] && p.timer.Off?
    ensures p.stranded == {page} && p.skipped == {}
  {
    p, req := OneSent(page, till, now, item);
    p.Fail(req);
    p.RequestWebPageDelayed(page, till, false, now, 0);
    var known := Known(map[page := till], map[page := item], now);
    var pages, m := p.ResolveWebPages(known);
    forall r | r in p.inFlight ensures false {
      assert DueItems(pages, map[page := req], known, p.inFlight[r].channel) == [] by {
        NothingUnsent(pages, map[page := req], known, p.inFlight[r].channel);
      }
    }
  }

  lemma {:induction false} NothingUnsent(pages: seq<int>, p: Pending, known: Known, channel: nat)
    requires forall page :: page in p ==> p[page] != 0
    ensures DueItems(pages, p, known, channel) == []
  {
    if pages != [] {
      NothingUnsent(pages[..|pages| - 1], p, known, channel);
    }
  }
}
