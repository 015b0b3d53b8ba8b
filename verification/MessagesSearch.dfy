/** The names under which searches are cached. */
module SearchToken {
  import opened Options

  datatype Tag = Custom(id: nat) | Emoji(text: string)

  /** What is searched for: a text, in messages of one sender or of any, with all of some tags. */
  datatype Request = Request(query: string, from: Option<nat>, tags: seq<Tag>)

  function Digit(d: nat): char
    requires d < 10
  {
    '0' + d as char
  }

  function Number(n: nat): string {
    if n < 10 then [Digit(n)] else Number(n / 10) + [Digit(n % 10)]
  }

  function TagLine(tag: Tag): string {
    match tag
    case Custom(id) => "custom" + Number(id)
    case Emoji(text) => "emoji" + text
  }

  /** The lines of a token behind the first: the sender, if there is one, and the tags. */
  function Lines(request: Request): seq<string> {
    SenderLines(request.from) + TagLines(request.tags)
  }

  function SenderLines(from: Option<nat>): seq<string> {
    if from.Some? then [Number(from.value)] else []
  }

  function TagLines(tags: seq<Tag>): seq<string> {
    seq(|tags|, i requires 0 <= i < |tags| => TagLine(tags[i]))
  }

  function Joined(lines: seq<string>): string {
    if lines == [] then "" else Joined(lines[..|lines| - 1]) + "\n" + lines[|lines| - 1]
  }

  function Token(request: Request): string {
    request.query + Joined(Lines(request))
  }

  lemma JoinedMore(s: string, lines: seq<string>, line: string)
    ensures s + Joined(lines + [line]) == s + Joined(lines) + "\n" + line
  {
    assert (lines + [line])[..|lines|] == lines;
  }

  method LineOf(tag: Tag) returns (line: string)
    ensures line == TagLine(tag)
  {
    match tag
    case Custom(id) => line := "custom" + Number(id);
    case Emoji(text) => line := "emoji" + text;
  }

  method QueryAndSender(request: Request) returns (result: string)
    ensures result == request.query + Joined(SenderLines(request.from))
  {
    result := request.query;
    assert result == result + Joined([]);
    if request.from.Some? {
      JoinedMore(request.query, [], Number(request.from.value));
      assert [] + [Number(request.from.value)] == SenderLines(request.from);
      result := result + "\n" + Number(request.from.value);
    }
  }

  lemma TagLinesMore(tags: seq<Tag>, i: nat)
    requires i < |tags|
    ensures TagLines(tags)[..i + 1] == TagLines(tags)[..i] + [TagLine(tags[i])]
  {
  }

  method RequestToToken(request: Request) returns (result: string)
    ensures result == Token(request)
  {
    result := QueryAndSender(request);
    ghost var lines := SenderLines(request.from);
    for i := 0 to |request.tags|
      invariant result == request.query + Joined(lines)
      invariant lines == SenderLines(request.from) + TagLines(request.tags)[..i]
    {
      var line := LineOf(request.tags[i]);
      JoinedMore(request.query, lines, line);
      TagLinesMore(request.tags, i);
      result := result + "\n" + line;
      lines := lines + [line];
    }
    assert lines == Lines(request);
  }

  // Requests whose texts have no line breaks have names of their own.

  predicate OneLine(s: string) {
    '\n' !in s
  }

  predicate Plain(request: Request) {
    OneLine(request.query) && PlainTags(request.tags)
  }

  predicate PlainTags(tags: seq<Tag>) {
    forall i :: 0 <= i < |tags| && tags[i].Emoji? ==> OneLine(tags[i].text)
  }

  lemma {:induction false} NumberDigits(n: nat)
    ensures |Number(n)| > 0 && forall c :: c in Number(n) ==> '0' <= c <= '9'
  {
    if n >= 10 {
      NumberDigits(n / 10);
    }
  }

  lemma {:induction false} NumberTells(m: nat, n: nat)
    requires Number(m) == Number(n)
    ensures m == n
  {
    NumberDigits(m / 10);
    NumberDigits(n / 10);
    if m >= 10 && n >= 10 {
      var x, y := Number(m / 10), Number(n / 10);
      assert x == (x + [Digit(m % 10)])[..|x|] && y == (y + [Digit(n % 10)])[..|y|];
      NumberTells(m / 10, n / 10);
      assert Number(m)[|Number(m)| - 1] == Digit(m % 10) && Number(n)[|Number(n)| - 1] == Digit(n % 10);
    } else {
      assert |Number(m)| == 1 <==> m < 10;
      assert Number(m)[|Number(m)| - 1] == Number(n)[|Number(n)| - 1];
    }
  }

  predicate FirstBreak(s: string, n: nat) {
    n <= |s| && (forall k :: 0 <= k < n ==> s[k] != '\n') && (n < |s| ==> s[n] == '\n')
  }

  predicate LastBreak(s: string, n: nat) {
    n < |s| && s[n] == '\n' && forall k :: n < k < |s| ==> s[k] != '\n'
  }

  lemma OneFirstBreak(s: string, m: nat, n: nat)
    requires FirstBreak(s, m) && FirstBreak(s, n)
    ensures m == n
  {
  }

  lemma OneLastBreak(s: string, m: nat, n: nat)
    requires LastBreak(s, m) && LastBreak(s, n)
    ensures m == n
  {
  }

  /** Texts that go on with a line break, or end: what comes before it is the same. */
  lemma SameLine(a: string, x: string, b: string, y: string)
    requires a + x == b + y && OneLine(a) && OneLine(b)
    requires (x == "" || x[0] == '\n') && (y == "" || y[0] == '\n')
    ensures a == b && x == y
  {
    var s := a + x;
    assert FirstBreak(a + x, |a|) && FirstBreak(b + y, |b|);
    OneFirstBreak(s, |a|, |b|);
    assert a == s[..|a|] && b == s[..|b|] && x == s[|a|..] && y == s[|b|..];
  }

  /** The same from the other end. */
  lemma SameLastLine(a: string, x: string, b: string, y: string)
    requires a + "\n" + x == b + "\n" + y && OneLine(x) && OneLine(y)
    ensures a == b && x == y
  {
    var s := a + "\n" + x;
    LastBreakAt(a, x);
    LastBreakAt(b, y);
    OneLastBreak(s, |a|, |b|);
    assert a == s[..|a|] && b == s[..|b|] && x == s[|a| + 1..] && y == s[|b| + 1..];
  }

  lemma LastBreakAt(a: string, x: string)
    requires OneLine(x)
    ensures LastBreak(a + "\n" + x, |a|)
  {
    var s := a + "\n" + x;
    forall k | |a| < k < |s| ensures s[k] != '\n' {
      assert s[k] == x[k - |a| - 1];
    }
  }

  lemma TagLineTells(a: Tag, b: Tag)
    requires TagLine(a) == TagLine(b)
    ensures a == b
  {
    if a.Custom? {
      assert TagLine(a)[0] == 'c' == TagLine(b)[0];
      assert TagLine(a)[6..] == Number(a.id) && TagLine(b)[6..] == Number(b.id);
      NumberTells(a.id, b.id);
    } else {
      assert TagLine(a)[0] == 'e' == TagLine(b)[0];
      assert TagLine(a)[5..] == a.text && TagLine(b)[5..] == b.text;
    }
  }

  lemma TagLineOneLine(tag: Tag)
    requires tag.Emoji? ==> OneLine(tag.text)
    ensures OneLine(TagLine(tag)) && |TagLine(tag)| > 0 && !('0' <= TagLine(tag)[0] <= '9')
  {
    if tag.Custom? {
      NumberDigits(tag.id);
    }
  }

  lemma {:induction false} JoinedTells(a: seq<string>, b: seq<string>)
    requires (forall i :: 0 <= i < |a| ==> OneLine(a[i])) && (forall i :: 0 <= i < |b| ==> OneLine(b[i]))
    requires Joined(a) == Joined(b)
    ensures a == b
    decreases |a|
  {
    if a != [] && b != [] {
      var m, n := |a| - 1, |b| - 1;
      SameLastLine(Joined(a[..m]), a[m], Joined(b[..n]), b[n]);
      JoinedTells(a[..m], b[..n]);
      assert a == a[..m] + [a[m]] && b == b[..n] + [b[n]];
    }
  }

  lemma {:induction false} JoinedBegins(lines: seq<string>)
    ensures Joined(lines) == "" || Joined(lines)[0] == '\n'
  {
    if lines != [] {
      JoinedBegins(lines[..|lines| - 1]);
    }
  }

  lemma LinesAreLines(request: Request)
    requires Plain(request)
    ensures forall i :: 0 <= i < |Lines(request)| ==> OneLine(Lines(request)[i])
  {
    if request.from.Some? {
      NumberDigits(request.from.value);
    }
    forall i | 0 <= i < |request.tags| ensures OneLine(TagLine(request.tags[i])) {
      TagLineOneLine(request.tags[i]);
    }
  }

  predicate Digits(line: string) {
    line != "" && '0' <= line[0] <= '9'
  }

  /** Only a sender puts a digit at the beginning of the next line. */
  lemma SenderShows(request: Request)
    requires Plain(request)
    ensures request.from.Some? <==> |Lines(request)| > 0 && Digits(Lines(request)[0])
  {
    if request.from.Some? {
      NumberDigits(request.from.value);
      assert Number(request.from.value)[0] in Number(request.from.value);
    } else if request.tags != [] {
      TagLineOneLine(request.tags[0]);
      assert Lines(request)[0] == TagLine(request.tags[0]);
    }
  }

  lemma LinesTell(a: Request, b: Request)
    requires Plain(a) && Plain(b) && Lines(a) == Lines(b)
    ensures a.from == b.from && a.tags == b.tags
  {
    SenderShows(a);
    SenderShows(b);
    if a.from.Some? {
      assert Lines(a)[0] == Number(a.from.value) && Lines(b)[0] == Number(b.from.value);
      NumberTells(a.from.value, b.from.value);
    }
    var n := |SenderLines(a.from)|;
    assert TagLines(a.tags) == Lines(a)[n..] && TagLines(b.tags) == Lines(b)[n..];
    TagLinesTell(a.tags, b.tags);
  }

  lemma TagLinesTell(a: seq<Tag>, b: seq<Tag>)
    requires TagLines(a) == TagLines(b)
    ensures a == b
  {
    assert |a| == |TagLines(a)| == |b|;
    forall i | 0 <= i < |a| ensures a[i] == b[i] {
      assert TagLines(a)[i] == TagLine(a[i]) && TagLines(b)[i] == TagLine(b[i]);
      TagLineTells(a[i], b[i]);
    }
  }

  lemma TokenTells(a: Request, b: Request)
    requires Plain(a) && Plain(b) && Token(a) == Token(b)
    ensures a == b
  {
    JoinedBegins(Lines(a));
    JoinedBegins(Lines(b));
    SameLine(a.query, Joined(Lines(a)), b.query, Joined(Lines(b)));
    LinesAreLines(a);
    LinesAreLines(b);
    JoinedTells(Lines(a), Lines(b));
    LinesTell(a, b);
  }

  /** A line break in the text can look like a sender or a tag: every token is also that of a mere text. */
  lemma LineBreakConfuses(request: Request)
    ensures Token(Request(Token(request), None, [])) == Token(request)
    ensures Request(Token(request), None, []) == request <==> request.from.None? && request.tags == []
  {
    assert SenderLines(None) + TagLines([]) == [];
    if request.from.None? && request.tags == [] {
      assert Lines(request) == [];
    }
  }
}

/** Searching the messages of one chat, page by page; first pages are cached. */
module MessagesSearch {
  import opened Ascending
  import opened Options
  import opened SearchToken

  datatype Result = Messages(ids: seq<int>, total: int) | NotModified

  /** What is announced: the messages of a page, and the token of the search they are for. */
  datatype Found = Found(total: int, messages: seq<int>, nextToken: string)

  /**
   * A request in flight: the search it was made for, whose token it carries, and the search and
   * offset it was sent with.
   */
  datatype Sent = Sent(madeFor: Request, request: Request, offsetId: int)

  const NO_SEARCH := Request("", None, [])

  function IdsOf(result: Result): seq<int> {
    if result.Messages? then result.ids else []
  }

  function FoundIn(result: Result, token: string): Found {
    if result.Messages? then Found(result.total, result.ids, token) else Found(-1, [], "")
  }

  function NextOffset(result: Result): int {
    var ids := IdsOf(result);
    if ids == [] then 0 else ids[|ids| - 1]
  }

  /** A page is announced with all its messages, in order, and the number the server gives. */
  lemma FoundMeans(result: Result, token: string)
    ensures var found := FoundIn(result, token);
            match result
            case Messages(ids, total) => found == Found(total, ids, token)
            case NotModified => found.messages == [] && found.total == -1
  {
  }

  type Cache = map<string, Result>

  /** What is there stays, and the key has a value afterwards. */
  lemma EmplacedMeans<K, V>(m: map<K, V>, k: K, v: V)
    ensures forall j :: j in m ==> j in Emplaced(m, k, v) && Emplaced(m, k, v)[j] == m[j]
    ensures k in Emplaced(m, k, v) && Emplaced(m, k, v).Keys == m.Keys + {k}
    ensures k !in m ==> Emplaced(m, k, v)[k] == v
  {
  }

  /** Looking a search up by its token is looking it up by itself. */
  ghost predicate Agrees(cache: Cache, byRequest: map<Request, Result>) {
    && (forall r :: Plain(r) ==> (Token(r) in cache <==> r in byRequest))
    && (forall r :: Plain(r) && r in byRequest ==> cache[Token(r)] == byRequest[r])
  }

  function Emplaced<K, V>(m: map<K, V>, k: K, v: V): map<K, V> {
    if k in m then m else m[k := v]
  }

  /**
   * Caching an answer is right exactly if the request was sent with the search it was made for,
   * or both had an answer already.
   */
  lemma AgreesCached(cache: Cache, byRequest: map<Request, Result>, sent: Sent, result: Result)
    requires Agrees(cache, byRequest) && Plain(sent.madeFor) && Plain(sent.request)
    ensures Agrees(Emplaced(cache, Token(sent.madeFor), result), Emplaced(byRequest, sent.request, result)) <==>
            sent.madeFor == sent.request || (sent.madeFor in byRequest && sent.request in byRequest)
  {
    var cache', byRequest' := Emplaced(cache, Token(sent.madeFor), result), Emplaced(byRequest, sent.request, result);
    if sent.madeFor == sent.request {
      forall r | Plain(r)
        ensures Token(r) in cache' <==> r in byRequest'
        ensures r in byRequest' ==> cache'[Token(r)] == byRequest'[r]
      {
        if Token(r) == Token(sent.madeFor) {
          TokenTells(r, sent.madeFor);
        }
      }
    } else if Agrees(cache', byRequest') {
      if Token(sent.request) == Token(sent.madeFor) {
        TokenTells(sent.request, sent.madeFor);
      }
      assert Token(sent.request) in cache' <==> sent.request in byRequest';
      assert Token(sent.madeFor) in cache' <==> sent.madeFor in byRequest';
    }
  }

  /** What waited is in flight, in order, with the search and the offset of now. */
  ghost predicate Sending(waiting: seq<Request>, last: nat, request: Request, offsetId: int, inFlight: map<nat, Sent>,
                          lastId: nat) {
    && lastId == last + |waiting|
    && (forall id :: id in inFlight <==> last < id <= lastId)
    && forall id :: id in inFlight ==> inFlight[id] == Sent(waiting[id - last - 1], request, offsetId)
  }

  lemma SendingMore(waiting: seq<Request>, last: nat, request: Request, offsetId: int, inFlight: map<nat, Sent>,
                    lastId: nat, next: Request)
    requires Sending(waiting, last, request, offsetId, inFlight, lastId)
    ensures Sending(waiting + [next], last, request, offsetId, inFlight[lastId + 1 := Sent(next, request, offsetId)],
                    lastId + 1)
  {
  }

  /** The searches that requests in flight were made for, in the order of their ids. */
  ghost function MadeFor(inFlight: map<nat, Sent>, ids: set<int>): seq<Request>
    requires ids <= inFlight.Keys
  {
    if ids == {} then [] else var id: nat := Least(ids); [inFlight[id].madeFor] + MadeFor(inFlight, ids - {id})
  }

  ghost function Below(ids: set<int>, id: int): set<int> {
    set j | j in ids && j < id
  }

  /** Every one of them is there, at the place of its id. */
  lemma {:induction false} MadeForMeans(inFlight: map<nat, Sent>, ids: set<int>, id: nat)
    requires ids <= inFlight.Keys && id in ids
    ensures |MadeFor(inFlight, ids)| == |ids| && |Below(ids, id)| < |ids|
    ensures MadeFor(inFlight, ids)[|Below(ids, id)|] == inFlight[id].madeFor
    decreases |ids|
  {
    var least: nat := Least(ids);
    var rest := ids - {least};
    if rest != {} {
      MadeForMeans(inFlight, rest, if id == least then Least(rest) else id);
    }
    if id == least {
      assert Below(ids, id) == {};
    } else {
      assert Below(ids, id) == {least} + Below(rest, id);
    }
  }

  /** Requests are known by their ids, and their texts are on one line each. */
  ghost predicate Numbered(inFlight: map<nat, Sent>, requestId: nat, lastId: nat) {
    && requestId <= lastId
    && forall id :: id in inFlight ==> 0 < id <= lastId && Plain(inFlight[id].madeFor) && Plain(inFlight[id].request)
  }

  class Search {
    var cache: Cache
    var request: Request
    var offsetId: int
    var searching: bool
    var requestId: nat
    // Requests about the history, which wait while messages of it are being deleted.
    var inFlight: map<nat, Sent>
    var postponed: seq<Request>
    var deleting: bool
    var lastId: nat
    ghost var byRequest: map<Request, Result>
    ghost var founds: seq<Found>

    ghost predicate Sane()
      reads this
    {
      && Plain(request) && Numbered(inFlight, requestId, lastId)
      && (forall i :: 0 <= i < |postponed| ==> Plain(postponed[i]))
      && (deleting ==> inFlight == map[])
    }

    /** The request that counts was sent with the search and the offset of now. */
    ghost predicate Whole()
      reads this
    {
      && Sane()
      && (requestId in inFlight ==> inFlight[requestId].request == request && inFlight[requestId].offsetId == offsetId)
    }

    /** As long as no request had to wait, every one was sent with the search it was made for. */
    ghost predicate Straight()
      reads this
    {
      !deleting && postponed == [] && forall id :: id in inFlight ==> inFlight[id].madeFor == inFlight[id].request
    }

    constructor ()
      ensures Whole() && Straight() && Agrees(cache, byRequest)
      ensures request == NO_SEARCH && founds == [] && inFlight == map[] && cache == map[] && byRequest == map[]
    {
      cache, request, offsetId, searching, requestId := map[], NO_SEARCH, 0, false, 0;
      inFlight, postponed, deleting, lastId := map[], [], false, 0;
      byRequest, founds := map[], [];
    }

    /** An answer has been announced, and the next page starts behind its last message. */
    ghost predicate Told(result: Result, token: string, before: seq<Found>)
      reads this
    {
      && founds == before + [FoundIn(result, token)] && requestId == 0
      && match result
         case Messages(ids, _) => offsetId == if ids == [] then 0 else ids[|ids| - 1]
         case NotModified => offsetId == 0
    }

    /** One more request is in flight, or waits until messages are deleted. */
    ghost predicate Asked(sent: map<nat, Sent>, waiting: seq<Request>, last: nat)
      reads this
    {
      && searching
      && if deleting then inFlight == sent && postponed == waiting + [request]
         else
           && requestId == last + 1 && inFlight == sent[requestId := Sent(request, request, offsetId)]
           && postponed == waiting
    }

    /** Nothing was sent and nothing has to wait. */
    ghost predicate NothingSent(sent: map<nat, Sent>, waiting: seq<Request>, was: bool)
      reads this
    {
      inFlight == sent && postponed == waiting && searching == was
    }

    method SearchMessages(r: Request)
      requires Whole() && Plain(r)
      modifies this`request, this`offsetId, this`searching, this`requestId, this`inFlight, this`postponed,
               this`lastId, this`founds, this`cache
      ensures Whole() && request == r && cache == old(cache) && (old(Straight()) ==> Straight())
      ensures if Token(r) in cache
              then Told(cache[Token(r)], Token(r), old(founds))
                   && NothingSent(old(inFlight), old(postponed), old(searching))
              else offsetId == 0 && founds == old(founds) && Asked(old(inFlight), old(postponed), old(lastId))
    {
      request, offsetId := r, 0;
      SearchRequest();
    }

    method SearchMore()
      requires Whole()
      modifies this`offsetId, this`searching, this`requestId, this`inFlight, this`postponed, this`lastId, this`founds,
               this`cache
      ensures Whole() && cache == old(cache) && (old(Straight()) ==> Straight())
      ensures if old(searching) || old(requestId) != 0 then
                NothingSent(old(inFlight), old(postponed), old(searching)) && founds == old(founds)
                && requestId == old(requestId) && offsetId == old(offsetId)
              else if old(offsetId) == 0 && Token(request) in cache then
                Told(cache[Token(request)], Token(request), old(founds))
                && NothingSent(old(inFlight), old(postponed), old(searching))
              else
                && offsetId == old(offsetId) && founds == old(founds)
                && Asked(old(inFlight), old(postponed), old(lastId))
    {
      if searching || requestId != 0 {
        return;
      }
      SearchRequest();
    }

    method SearchRequest()
      requires Sane()
      modifies this`offsetId, this`searching, this`requestId, this`inFlight, this`postponed, this`lastId, this`founds,
               this`cache
      ensures Whole() && cache == old(cache) && (old(Straight()) ==> Straight())
      ensures if old(offsetId) == 0 && Token(request) in cache then
                Told(cache[Token(request)], Token(request), old(founds))
                && NothingSent(old(inFlight), old(postponed), old(searching))
              else
                && offsetId == old(offsetId) && founds == old(founds)
                && Asked(old(inFlight), old(postponed), old(lastId))
    {
      var nextToken := RequestToToken(request);
      if offsetId == 0 && nextToken in cache {
        requestId := 0;
        SearchReceived(cache[nextToken], requestId, nextToken);
        return;
      }
      if deleting {
        postponed := postponed + [request];
      } else {
        Generate(request);
      }
      searching := true;
    }

    /** The request itself: sent with the search and the offset of now, whatever search it was made for. */
    method Generate(madeFor: Request)
      requires Sane() && !deleting && Plain(madeFor)
      modifies this`requestId, this`inFlight, this`lastId
      ensures Whole() && requestId == lastId == old(lastId) + 1
      ensures inFlight == old(inFlight)[lastId := Sent(madeFor, request, offsetId)]
    {
      lastId := lastId + 1;
      inFlight := inFlight[lastId := Sent(madeFor, request, offsetId)];
      requestId := lastId;
    }

    /** An answer. One that is not to the request that counts changes nothing. */
    method Done(id: nat, result: Result)
      requires Whole() && id in inFlight
      modifies this`cache, this`byRequest, this`offsetId, this`searching, this`requestId, this`inFlight, this`founds
      ensures Whole() && (old(Straight()) ==> Straight()) && inFlight == old(inFlight) - {id} && !searching
      ensures id != old(requestId) ==>
                cache == old(cache) && byRequest == old(byRequest) && founds == old(founds)
                && requestId == old(requestId) && offsetId == old(offsetId)
      ensures id == old(requestId) ==> Told(result, Token(old(inFlight)[id].madeFor), old(founds))
      ensures id == old(requestId) && old(offsetId) == 0 ==>
                && cache == Emplaced(old(cache), Token(old(inFlight)[id].madeFor), result)
                && byRequest == Emplaced(old(byRequest), request, result)
      ensures id == old(requestId) && old(offsetId) != 0 ==> cache == old(cache) && byRequest == old(byRequest)
    {
      var sent := inFlight[id];
      searching := false;
      inFlight := inFlight - {id};
      if id == requestId && offsetId == 0 {
        byRequest := Emplaced(byRequest, request, result);
      }
      SearchReceived(result, id, Token(sent.madeFor));
    }

    /** What an answer, or a cached one, does if it counts. */
    method SearchReceived(result: Result, id: nat, nextToken: string)
      modifies this`cache, this`offsetId, this`requestId, this`founds
      ensures if id != old(requestId)
              then cache == old(cache) && founds == old(founds) && requestId == old(requestId)
                && offsetId == old(offsetId)
              else Told(result, nextToken, old(founds))
                   && cache == if old(offsetId) == 0 then Emplaced(old(cache), nextToken, result) else old(cache)
    {
      if id != requestId {
        return;
      }
      if offsetId == 0 {
        cache := Emplaced(cache, nextToken, result);
      }
      requestId, offsetId := 0, NextOffset(result);
      founds := founds + [FoundIn(result, nextToken)];
    }

    method Fail(id: nat, queryEmpty: bool)
      requires Whole() && id in inFlight
      modifies this`searching, this`requestId, this`inFlight, this`founds
      ensures Whole() && (old(Straight()) ==> Straight()) && inFlight == old(inFlight) - {id} && !searching
      ensures requestId == if id == old(requestId) then 0 else old(requestId)
      ensures founds == if queryEmpty then old(founds) + [Found(0, [], Token(old(inFlight)[id].madeFor))]
              else old(founds)
    {
      var sent := inFlight[id];
      searching := false;
      inFlight := inFlight - {id};
      if requestId == id {
        requestId := 0;
      }
      if queryEmpty {
        founds := founds + [Found(0, [], Token(sent.madeFor))];
      }
    }

    /** Messages of the chat are being deleted: requests in flight are cancelled and wait, in their order. */
    method StartDelete()
      requires Whole()
      modifies this`inFlight, this`postponed, this`deleting
      ensures Whole() && deleting && inFlight == map[]
      ensures postponed == old(postponed) + MadeFor(old(inFlight), old(inFlight).Keys)
    {
      if deleting {
        return;
      }
      Postpone();
      inFlight, deleting := map[], true;
    }

    method Postpone()
      requires forall i :: 0 <= i < |postponed| ==> Plain(postponed[i])
      requires forall id :: id in inFlight ==> Plain(inFlight[id].madeFor)
      modifies this`postponed
      ensures postponed == old(postponed) + MadeFor(inFlight, inFlight.Keys)
      ensures forall i :: 0 <= i < |postponed| ==> Plain(postponed[i])
    {
      ghost var was := postponed;
      var left: set<int> := inFlight.Keys;
      while |left| > 0
        invariant left <= inFlight.Keys
        invariant forall i :: 0 <= i < |postponed| ==> Plain(postponed[i])
        invariant postponed + MadeFor(inFlight, left) == was + MadeFor(inFlight, inFlight.Keys)
        decreases |left|
      {
        var id: nat := Least(left);
        left := left - {id};
        postponed := postponed + [inFlight[id].madeFor];
      }
      assert left == {};
    }

    /** The messages are deleted: what waited is sent now. */
    method FinishDelete()
      requires Whole() && deleting
      modifies this`requestId, this`inFlight, this`lastId, this`postponed, this`deleting
      ensures Whole() && !deleting && postponed == []
      ensures forall id :: id in inFlight ==> inFlight[id].request == request && inFlight[id].offsetId == offsetId
      ensures Sending(old(postponed), old(lastId), request, offsetId, inFlight, lastId)
      ensures old(postponed) != [] ==> requestId == lastId
    {
      deleting := false;
      var waiting := postponed;
      postponed := [];
      ghost var last := lastId;
      for i := 0 to |waiting|
        invariant Whole() && !deleting && postponed == []
        invariant forall id :: id in inFlight ==> inFlight[id].request == request && inFlight[id].offsetId == offsetId
        invariant Sending(waiting[..i], last, request, offsetId, inFlight, lastId)
        invariant i > 0 ==> requestId == lastId
        invariant forall j :: 0 <= j < |waiting| ==> Plain(waiting[j])
      {
        SendingMore(waiting[..i], last, request, offsetId, inFlight, lastId, waiting[i]);
        assert waiting[..i + 1] == waiting[..i] + [waiting[i]];
        Generate(waiting[i]);
      }
      assert waiting[..|waiting|] == waiting;
    }
  }

  // Whole runs.

  datatype Event =
    | SearchFor(request: Request)
    | More
    | Response(id: nat, result: Result)
    | Error(id: nat, queryEmpty: bool)
    | DeletingStarts
    | DeletingEnds

  /** What counts for the cache at one moment of a run. */
  datatype Moment = Moment(cache: Cache, byRequest: map<Request, Result>, request: Request, requestId: nat,
                           offsetId: int, searching: bool, inFlight: map<nat, Sent>, founds: seq<Found>)
  {
    ghost predicate Right() {
      Agrees(cache, byRequest)
    }

    /** The answer is to the current request, and for a first page. */
    predicate Counts(event: Event) {
      event.Response? && event.id in inFlight && event.id == requestId && offsetId == 0
    }

    /** An answer that counts is for the search its request was made for, or both have an answer already. */
    predicate Fair(event: Event) {
      Counts(event) ==>
        var sent := inFlight[event.id];
        sent.madeFor == sent.request || (sent.madeFor in byRequest && sent.request in byRequest)
    }
  }

  /** What is announced at an event. */
  function Announced(before: Moment, event: Event): seq<Found> {
    match event
    case SearchFor(request) => FromCache(before.cache, request)
    case More =>
      if before.searching || before.requestId != 0 || before.offsetId != 0 then []
      else FromCache(before.cache, before.request)
    case Response(id, result) =>
      if id in before.inFlight && id == before.requestId then [FoundIn(result, Token(before.inFlight[id].madeFor))]
      else []
    case Error(id, queryEmpty) =>
      if id in before.inFlight && queryEmpty then [Found(0, [], Token(before.inFlight[id].madeFor))] else []
    case DeletingStarts => []
    case DeletingEnds => []
  }

  function FromCache(cache: Cache, request: Request): seq<Found> {
    var token := Token(request);
    if token in cache then [FoundIn(cache[token], token)] else []
  }

  /** The search that is going on after the first k events. */
  function LastSearch(events: seq<Event>, k: nat): Request
    requires k <= |events|
  {
    if k == 0 then NO_SEARCH
    else if events[k - 1].SearchFor? then events[k - 1].request
    else LastSearch(events, k - 1)
  }

  /** What an event does to the cache, and what is announced; an answer is no longer in flight. */
  ghost predicate Follows(before: Moment, event: Event, after: Moment) {
    && (if before.Counts(event) then
          var sent := before.inFlight[event.id];
          && after.cache == Emplaced(before.cache, Token(sent.madeFor), event.result)
          && after.byRequest == Emplaced(before.byRequest, sent.request, event.result)
        else after.cache == before.cache && after.byRequest == before.byRequest)
    && (event.Response? && event.id in before.inFlight ==> after.inFlight == before.inFlight - {event.id})
    && after.request == (if event.SearchFor? then event.request else before.request)
    && after.founds == before.founds + Announced(before, event)
  }

  /** A cache that is right stays right through an event if and only if that is fair. */
  lemma RightIfFair(before: Moment, event: Event, after: Moment)
    requires Follows(before, event, after) && before.Right()
    requires forall id :: id in before.inFlight ==>
               Plain(before.inFlight[id].madeFor) && Plain(before.inFlight[id].request)
    ensures after.Right() <==> before.Fair(event)
  {
    if before.Counts(event) {
      AgreesCached(before.cache, before.byRequest, before.inFlight[event.id], event.result);
    }
  }

  ghost function Now(s: Search): Moment
    reads s
  {
    Moment(s.cache, s.byRequest, s.request, s.requestId, s.offsetId, s.searching, s.inFlight, s.founds)
  }

  method Handle(s: Search, event: Event)
    requires s.Whole() && (event.SearchFor? ==> Plain(event.request))
    modifies s
    ensures s.Whole() && Follows(old(Now(s)), event, Now(s))
    ensures old(s.Straight()) && !event.DeletingStarts? ==> s.Straight()
  {
    match event
    case SearchFor(request) =>
      s.SearchMessages(request);
    case More =>
      s.SearchMore();
    case Response(id, result) =>
      if id in s.inFlight {
        s.Done(id, result);
      }
    case Error(id, queryEmpty) =>
      if id in s.inFlight {
        s.Fail(id, queryEmpty);
      }
    case DeletingStarts =>
      s.StartDelete();
    case DeletingEnds =>
      if s.deleting {
        s.FinishDelete();
      }
  }

  /** One event of a run: what it does, and whether the cache stays right. */
  ghost predicate Step(before: Moment, event: Event, after: Moment) {
    && Follows(before, event, after)
    && (before.Right() ==> (after.Right() <==> before.Fair(event)))
  }

  /** As long as nothing is deleted, nothing has to wait and the cache stays right. */
  ghost predicate Undisturbed(s: Search)
    reads s
  {
    s.Straight() && Now(s).Right()
  }

  method HandleNext(s: Search, event: Event)
    requires s.Whole() && (event.SearchFor? ==> Plain(event.request))
    modifies s
    ensures s.Whole() && Step(old(Now(s)), event, Now(s))
    ensures old(Undisturbed(s)) && !event.DeletingStarts? ==> Undisturbed(s)
  {
    ghost var before := Now(s);
    assert s.Straight() ==> before.Fair(event);
    Handle(s, event);
    if before.Right() {
      RightIfFair(before, event, Now(s));
    }
  }

  ghost predicate StepAt(events: seq<Event>, moments: seq<Moment>, i: nat)
    requires i + 1 < |moments| <= |events| + 1
  {
    Step(moments[i], events[i], moments[i + 1])
  }

  ghost predicate Chain(events: seq<Event>, moments: seq<Moment>) {
    |moments| <= |events| + 1 && forall i :: 0 <= i < |moments| - 1 ==> StepAt(events, moments, i)
  }

  lemma ChainMore(events: seq<Event>, moments: seq<Moment>, next: Moment)
    requires 0 < |moments| <= |events| && Chain(events, moments)
    requires Step(moments[|moments| - 1], events[|moments| - 1], next)
    ensures Chain(events, moments + [next])
  {
    var more := moments + [next];
    forall i | 0 <= i < |more| - 1 ensures StepAt(events, more, i) {
      assert more[i] == moments[i];
      if i < |moments| - 1 {
        assert more[i + 1] == moments[i + 1] && StepAt(events, moments, i);
      }
    }
  }

  /** No deletion starts among the first k events. */
  ghost predicate Quiet(events: seq<Event>, k: nat)
    requires k <= |events|
  {
    forall i :: 0 <= i < k ==> !events[i].DeletingStarts?
  }

  /** The run so far, as long as the moments are. */
  ghost predicate SoFar(s: Search, events: seq<Event>, moments: seq<Moment>)
    reads s
  {
    && s.Whole() && Chain(events, moments) && |moments| > 0 && moments[|moments| - 1] == Now(s)
    && moments[0].cache == map[] && moments[0].Right() && moments[0].founds == []
    && (Quiet(events, |moments| - 1) ==> Undisturbed(s))
  }

  method RunNext(s: Search, events: seq<Event>, ghost moments: seq<Moment>, event: Event)
    returns (ghost more: seq<Moment>)
    requires SoFar(s, events, moments) && |moments| <= |events| && event == events[|moments| - 1]
    requires event.SearchFor? ==> Plain(event.request)
    modifies s
    ensures |more| == |moments| + 1 && SoFar(s, events, more)
    ensures s.request == if event.SearchFor? then event.request else old(s.request)
  {
    HandleNext(s, event);
    ChainMore(events, moments, Now(s));
    more := moments + [Now(s)];
    assert more[0] == moments[0];
    assert Quiet(events, |moments|) ==> Quiet(events, |moments| - 1) && !event.DeletingStarts?;
  }

  method Begin(events: seq<Event>) returns (s: Search, ghost moments: seq<Moment>)
    ensures fresh(s) && |moments| == 1 && SoFar(s, events, moments) && s.request == NO_SEARCH
  {
    s := new Search();
    moments := [Now(s)];
  }

  /**
   * Any searches, answers and deletions, in any order, with all the moments in between: the cache is
   * right from one to the next if and only if the event is fair, as all are while nothing is deleted.
   */
  method Run(events: seq<Event>) returns (s: Search, ghost moments: seq<Moment>)
    requires forall i :: 0 <= i < |events| && events[i].SearchFor? ==> Plain(events[i].request)
    ensures fresh(s) && |moments| == |events| + 1 && SoFar(s, events, moments)
    ensures s.request == LastSearch(events, |events|)
  {
    s, moments := Begin(events);
    for k := 0 to |events|
      invariant fresh(s) && |moments| == k + 1 && SoFar(s, events, moments)
      invariant s.request == LastSearch(events, k)
    {
      moments := RunNext(s, events, moments, events[k]);
    }
  }

  /**
   * While messages are deleted it can go wrong: a request for a that had to wait goes out with the
   * cached search for b, and its answer is kept as that of a, which nobody has asked for.
   */
  method WrongAnswerCached(a: Request, b: Request) returns (s: Search)
    requires Plain(a) && Plain(b) && a != b
    ensures s.Whole() && Token(a) in s.cache && a !in s.byRequest && !Agrees(s.cache, s.byRequest)
  {
    s := Waited(a, b);
    s.Done(s.requestId, Messages([], 0));
    assert Token(a) in s.cache && a !in s.byRequest;
  }

  method Waited(a: Request, b: Request) returns (s: Search)
    requires Plain(a) && Plain(b) && a != b
    ensures fresh(s) && s.Whole() && s.requestId in s.inFlight && s.inFlight[s.requestId] == Sent(a, b, 0)
    ensures s.offsetId == 0 && s.request == b && s.byRequest == map[b := Messages([], 0)]
  {
    s := OneWaiting(a, b);
    s.FinishDelete();
  }

  method OneWaiting(a: Request, b: Request) returns (s: Search)
    requires Plain(a) && Plain(b) && a != b
    ensures fresh(s) && s.Whole() && s.deleting && s.postponed == [a]
    ensures s.offsetId == 0 && s.request == b && s.byRequest == map[b := Messages([], 0)]
  {
    if Token(a) == Token(b) {
      TokenTells(a, b);
    }
    s := CachedOnly(b);
    s.StartDelete();
    s.SearchMessages(a);
    s.SearchMessages(b);
  }

  /** One search, answered with nothing. */
  method CachedOnly(b: Request) returns (s: Search)
    requires Plain(b)
    ensures fresh(s) && s.Whole() && s.Straight() && s.cache == map[Token(b) := Messages([], 0)] && s.inFlight == map[]
    ensures s.byRequest == map[b := Messages([], 0)]
  {
    s := new Search();
    s.SearchMessages(b);
    s.Done(s.requestId, Messages([], 0));
  }
}
