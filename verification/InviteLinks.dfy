/** The cached first page of a chat's own invite links. */
module InviteLinks {
  import opened Options

  /** A link; `details` stands for what plays no role here. */
  datatype Link = Link(link: string, permanent: bool, revoked: bool, usage: int, details: nat)
  {
    predicate Active() {
      permanent && !revoked
    }
  }

  datatype Links = Links(links: seq<Link>, count: int)

  const NO_LINKS := Links([], 0)

  // The active permanent link, looked for everywhere and at the front only.

  function Search(list: seq<Link>): Option<Link> {
    if list == [] then None else if list[0].Active() then Some(list[0]) else Search(list[1..])
  }

  function LookupMyPermanent(list: seq<Link>): Option<Link> {
    if list != [] && list[0].Active() then Some(list[0]) else None
  }

  /** An active permanent link is first, so there is at most one. */
  predicate OnlyFirstActive(list: seq<Link>) {
    forall k :: 0 <= k < |list| && list[k].Active() ==> k == 0
  }

  predicate AtMostOneActive(list: seq<Link>) {
    forall i, j :: 0 <= i < |list| && 0 <= j < |list| && list[i].Active() && list[j].Active() ==> i == j
  }

  lemma {:induction false} NothingToFind(list: seq<Link>)
    ensures Search(list) == None <==> forall k :: 0 <= k < |list| ==> !list[k].Active()
  {
    if list != [] && !list[0].Active() {
      NothingToFind(list[1..]);
      assert forall k :: 0 < k < |list| ==> list[k] == list[1..][k - 1];
    }
  }

  /** Looking at the front finds what a search of the whole list finds. */
  lemma LookupIsSearch(list: seq<Link>)
    requires OnlyFirstActive(list)
    ensures LookupMyPermanent(list) == Search(list)
  {
    NothingToFind(list);
  }

  // What is done to lists.

  function FirstActive(list: seq<Link>): (i: nat)
    ensures i <= |list|
    ensures i < |list| ==> list[i].Active()
    ensures forall k :: 0 <= k < i ==> !list[k].Active()
  {
    if list == [] || list[0].Active() then 0 else 1 + FirstActive(list[1..])
  }

  function BringToFront(list: seq<Link>): seq<Link> {
    var i := FirstActive(list);
    if 0 < i < |list| then [list[i]] + list[..i] + list[i + 1..] else list
  }

  lemma FrontKeepsLinks(list: seq<Link>)
    ensures multiset(BringToFront(list)) == multiset(list)
  {
    var i := FirstActive(list);
    if 0 < i < |list| {
      assert list == list[..i] + [list[i]] + list[i + 1..];
    }
  }

  lemma FrontOnlyActive(list: seq<Link>)
    ensures OnlyFirstActive(BringToFront(list)) <==> AtMostOneActive(list)
  {
    var i := FirstActive(list);
    var front := BringToFront(list);
    if 0 < i < |list| {
      assert forall k :: 0 < k <= i ==> front[k] == list[k - 1] && !front[k].Active();
      assert forall k :: i < k < |list| ==> front[k] == list[k];
    }
  }

  /** Bringing the first active link to the front loses nothing, and is enough if it is the only one. */
  lemma FrontMeans(list: seq<Link>)
    ensures multiset(BringToFront(list)) == multiset(list)
    ensures LookupMyPermanent(BringToFront(list)) == Search(list)
    ensures OnlyFirstActive(BringToFront(list)) <==> AtMostOneActive(list)
  {
    FrontKeepsLinks(list);
    FrontOnlyActive(list);
    FirstIsFound(list);
  }

  lemma {:induction false} FirstIsFound(list: seq<Link>)
    ensures Search(list) == if FirstActive(list) < |list| then Some(list[FirstActive(list)]) else None
  {
    if list != [] && !list[0].Active() {
      FirstIsFound(list[1..]);
    }
  }

  function Inactive(list: seq<Link>): (r: seq<Link>)
    ensures |r| <= |list| && forall l :: l in r <==> l in list && !l.Active()
  {
    if list == [] then []
    else (if list[0].Active() then [] else [list[0]]) + Inactive(list[1..])
  }

  /** All but the links called `name`. */
  function Except(list: seq<Link>, name: string): (r: seq<Link>)
    ensures |r| <= |list| && forall l :: l in r <==> l in list && l.link != name
  {
    if list == [] then []
    else Except(list[..|list| - 1], name) + if list[|list| - 1].link == name then [] else [list[|list| - 1]]
  }

  /** Index of the first link called `name`, or the length. */
  function IndexOf(list: seq<Link>, name: string): (i: nat)
    ensures i <= |list| && (i < |list| ==> list[i].link == name)
    ensures forall k :: 0 <= k < i ==> list[k].link != name
  {
    if list == [] || list[0].link == name then 0 else 1 + IndexOf(list[1..], name)
  }

  function Less(count: int): int { if count > 0 then count - 1 else count }

  /** A link of one's own that the server has just made: in front, or behind an active permanent one. */
  function Prepended(l: Links, link: Link): Links {
    var had := LookupMyPermanent(l.links).Some?;
    var kept := if link.permanent && had then l.links[1..] else l.links;
    var count := if link.permanent && had then Less(l.count) else l.count;
    Links(if had && !link.permanent then [kept[0], link] + kept[1..] else [link] + kept, count + 1)
  }

  /** An answer to an edit: the link changes, or goes if it has just been revoked. */
  function Edited(l: Links, name: string, link: Link): Links {
    var j := IndexOf(l.links, name);
    if j == |l.links| then l
    else if link.revoked && !l.links[j].revoked then Links(l.links[..j] + l.links[j + 1..], Less(l.count))
    else Links(l.links[j := link], l.count)
  }

  function Replaced(list: seq<Link>, link: Link): seq<Link> {
    seq(|list|, k requires 0 <= k < |list| => if list[k].link == link.link then link else list[k])
  }

  function Parsed(known: Links, slice: seq<Link>): seq<Link> {
    var permanent := LookupMyPermanent(known.links);
    if permanent.Some? then Except(slice, permanent.value.link) else slice
  }

  /** The first page as the server has it, around the permanent link that is known already. */
  function Received(known: Links, slice: seq<Link>, count: int): Links {
    var parsed := Parsed(known, slice);
    if LookupMyPermanent(known.links).None? then Links(BringToFront(parsed), count)
    else
      var list := known.links[..1] + Inactive(parsed);
      Links(list, if count < |list| then |list| else count)
  }

  function WithPermanent(l: Links, link: Link): Links {
    var permanent := LookupMyPermanent(l.links);
    if permanent.Some? && permanent.value.link == link.link then
      Links([permanent.value.(usage := link.usage)] + l.links[1..], l.count)
    else if permanent.Some? then Links([link] + l.links[1..], Less(l.count))
    else Links([link] + l.links, l.count)
  }

  function WithoutPermanent(l: Links): Links {
    if LookupMyPermanent(l.links).Some? then Links(l.links[1..], Less(l.count)) else l
  }

  // What becomes of the other links, and of the count.

  /** An edit makes no link of the list revoked. */
  lemma EditedRevokes(l: Links, name: string, link: Link)
    ensures forall x :: x in Edited(l, name, link).links && x.revoked ==>
              exists y :: y in l.links && y.revoked && (x == y || (x == link && y.link == name))
  {
    var j, r := IndexOf(l.links, name), Edited(l, name, link).links;
    forall k | 0 <= k < |r| && r[k].revoked
      ensures exists y :: y in l.links && y.revoked && (r[k] == y || (r[k] == link && y.link == name))
    {
      if j < |l.links| && k == j && !(link.revoked && !l.links[j].revoked) {
        assert l.links[j] in l.links;
      } else {
        assert r[k] in l.links;
      }
    }
  }

  predicate UniqueName(list: seq<Link>, name: string) {
    forall i, j :: 0 <= i < j < |list| && list[i].link == name ==> list[j].link != name
  }

  /**
   * A link that an edit revokes leaves the list and the count, and the others stay in order. Any other
   * edit changes one link alone.
   */
  lemma EditedMeans(l: Links, name: string, link: Link, j: nat)
    requires j < |l.links| && l.links[j].link == name && UniqueName(l.links, name)
    ensures var r := Edited(l, name, link);
            if link.revoked && !l.links[j].revoked then
              && |r.links| == |l.links| - 1 && r.count == (if l.count > 0 then l.count - 1 else l.count)
              && (forall x :: x in r.links ==> x.link != name)
              && (forall k :: 0 <= k < |r.links| ==> r.links[k] == l.links[if k < j then k else k + 1])
            else
              && |r.links| == |l.links| && r.count == l.count && r.links[j] == link
              && forall k :: 0 <= k < |r.links| && k != j ==> r.links[k] == l.links[k]
  {
    assert IndexOf(l.links, name) == j;
  }

  lemma EditedUnknown(l: Links, name: string, link: Link)
    requires forall x :: x in l.links ==> x.link != name
    ensures Edited(l, name, link) == l
  {
  }

  /**
   * A new link comes first, or second behind an active permanent one. The others stay in order, but
   * for one that gives way to a new permanent link.
   */
  lemma PrependedMeans(l: Links, link: Link)
    ensures var r, known := Prepended(l, link), LookupMyPermanent(l.links);
            if known.None? then r.links == [link] + l.links && r.count == l.count + 1
            else if link.permanent then
              r.links == [link] + l.links[1..] && r.count == (if l.count > 0 then l.count else l.count + 1)
            else r.links == [known.value, link] + l.links[1..] && r.count == l.count + 1
  {
  }

  lemma InactiveFirst(x: Link, list: seq<Link>)
    ensures Inactive([x] + list) == (if x.Active() then [] else [x]) + Inactive(list)
  {
    assert ([x] + list)[1..] == list;
  }

  lemma ExceptLast(list: seq<Link>, x: Link, name: string)
    ensures Except(list + [x], name) == Except(list, name) + if x.link == name then [] else [x]
  {
    assert (list + [x])[..|list|] == list;
  }

  /** Links are left out one by one: what is left of two lists put together is what is left of each. */
  lemma {:induction false} InactiveOfBoth(a: seq<Link>, b: seq<Link>)
    ensures Inactive(a + b) == Inactive(a) + Inactive(b)
  {
    if a == [] {
      assert a + b == b;
    } else {
      var x, rest := a[0], a[1..];
      assert a == [x] + rest && a + b == [x] + (rest + b);
      InactiveOfBoth(rest, b);
      InactiveFirst(x, rest);
      InactiveFirst(x, rest + b);
      Regrouped(if x.Active() then [] else [x], Inactive(rest), Inactive(b));
    }
  }

  lemma {:induction false} ExceptOfBoth(a: seq<Link>, b: seq<Link>, name: string)
    ensures Except(a + b, name) == Except(a, name) + Except(b, name)
  {
    if b == [] {
      assert a + b == a;
    } else {
      var x, rest := b[|b| - 1], b[..|b| - 1];
      assert b == rest + [x] && a + b == a + rest + [x];
      ExceptOfBoth(a, rest, name);
      ExceptLast(rest, x, name);
      ExceptLast(a + rest, x, name);
      Regrouped(Except(a, name), Except(rest, name), if x.link == name then [] else [x]);
    }
  }

  lemma Regrouped(a: seq<Link>, b: seq<Link>, c: seq<Link>)
    ensures a + (b + c) == a + b + c
  {
  }

  /** A first page brings its links, or around a known permanent link those that are neither it nor active. */
  lemma ReceivedMeans(known: Links, slice: seq<Link>, count: int)
    ensures var r, was := Received(known, slice, count), LookupMyPermanent(known.links);
            if was.None? then multiset(r.links) == multiset(slice) && r.count == count
            else
              && |r.links| > 0 && r.links[0] == was.value
              && (forall x :: x in r.links[1..] <==> x in slice && !x.Active() && x.link != was.value.link)
              && r.count == (if count < |r.links| then |r.links| else count)
  {
    FrontKeepsLinks(slice);
  }

  /** Setting a permanent link: the one that is known takes the new usage, or gives way; the others stay. */
  lemma WithPermanentMeans(l: Links, link: Link)
    ensures var r, known := WithPermanent(l, link), LookupMyPermanent(l.links);
            if known.None? then r.links == [link] + l.links && r.count == l.count
            else
              && |r.links| == |l.links| && r.links[1..] == l.links[1..]
              && (known.value.link == link.link ==>
                    r.links[0] == known.value.(usage := link.usage) && r.count == l.count)
              && (known.value.link != link.link ==>
                    r.links[0] == link && r.count == if l.count > 0 then l.count - 1 else l.count)
  {
  }

  /** Clearing it takes it away and nothing else. */
  lemma WithoutPermanentMeans(l: Links)
    ensures var r, known := WithoutPermanent(l), LookupMyPermanent(l.links);
            if known.None? then r == l
            else [known.value] + r.links == l.links && r.count == if l.count > 0 then l.count - 1 else l.count
  {
  }

  /** An external update changes the links of its name and no others. */
  lemma ReplacedMeans(list: seq<Link>, link: Link)
    ensures |Replaced(list, link)| == |list|
    ensures forall k :: 0 <= k < |list| ==>
              (list[k].link == link.link ==> Replaced(list, link)[k] == link)
              && (list[k].link != link.link ==> Replaced(list, link)[k] == list[k])
  {
  }

  // When the active permanent link stays first, and the only one.

  lemma PrependedKeeps(l: Links, link: Link)
    ensures OnlyFirstActive(l.links) <==> OnlyFirstActive(Prepended(l, link).links)
    ensures link.Active() ==> LookupMyPermanent(Prepended(l, link).links) == Some(link)
  {
    var list, r := l.links, Prepended(l, link).links;
    var removed := LookupMyPermanent(list).Some? && link.permanent;
    assert forall k :: 0 < k < |list| ==> r[if removed then k else k + 1] == list[k];
  }

  /** An edit keeps it exactly unless it makes a link active that is not the first. */
  lemma EditedKeeps(l: Links, name: string, link: Link)
    requires OnlyFirstActive(l.links)
    ensures OnlyFirstActive(Edited(l, name, link).links) <==> !(link.Active() && 0 < IndexOf(l.links, name) < |l.links|)
  {
    var j := IndexOf(l.links, name);
    if 0 < j < |l.links| && link.Active() {
      assert Edited(l, name, link).links[j].Active();
    }
  }

  lemma ReplacedKeeps(list: seq<Link>, link: Link)
    requires OnlyFirstActive(list)
    ensures OnlyFirstActive(Replaced(list, link)) <==>
            !(link.Active() && exists k :: 0 < k < |list| && list[k].link == link.link)
  {
    if k :| 0 < k < |list| && list[k].link == link.link {
      assert Replaced(list, link)[k] == link;
    }
  }

  /** A first page keeps it if nothing active is known already, exactly if the page has at most one active link. */
  lemma ReceivedKeeps(known: Links, slice: seq<Link>, count: int)
    requires OnlyFirstActive(known.links)
    ensures OnlyFirstActive(Received(known, slice, count).links) <==>
            LookupMyPermanent(known.links).Some? || AtMostOneActive(slice)
    ensures LookupMyPermanent(Received(known, slice, count).links)
         == if LookupMyPermanent(known.links).Some? then LookupMyPermanent(known.links) else Search(slice)
  {
    if LookupMyPermanent(known.links).Some? {
      NoneActive(Parsed(known, slice));
    } else {
      FrontMeans(slice);
    }
  }

  lemma NoneActive(list: seq<Link>)
    ensures forall k :: 0 <= k < |Inactive(list)| ==> !Inactive(list)[k].Active()
  {
    assert forall k :: 0 <= k < |Inactive(list)| ==> Inactive(list)[k] in Inactive(list);
  }

  lemma WithPermanentKeeps(l: Links, link: Link)
    requires OnlyFirstActive(l.links) && link.permanent
    ensures OnlyFirstActive(WithPermanent(l, link).links)
    ensures link.Active() ==>
              var now := LookupMyPermanent(WithPermanent(l, link).links);
              now.Some? && now.value.link == link.link && now.value.usage == link.usage
  {
  }

  lemma WithoutPermanentKeeps(l: Links)
    requires OnlyFirstActive(l.links)
    ensures OnlyFirstActive(WithoutPermanent(l).links) && LookupMyPermanent(WithoutPermanent(l).links) == None
    ensures Search(WithoutPermanent(l).links) == None
  {
    LookupIsSearch(WithoutPermanent(l).links);
  }

  /**
   * The count covers the list and stays so through every operation, but for two: a new permanent
   * link adds to the list and not to the count; and a first page that comes when no permanent link
   * is known brings the server's count, whatever its length.
   */
  lemma CountCovers(l: Links, link: Link, name: string, slice: seq<Link>, count: int)
    requires l.count >= |l.links|
    ensures Prepended(l, link).count >= |Prepended(l, link).links|
    ensures Edited(l, name, link).count >= |Edited(l, name, link).links|
    ensures l.count >= |Replaced(l.links, link)|
    ensures WithoutPermanent(l).count >= |WithoutPermanent(l).links|
    ensures WithPermanent(l, link).count >= |WithPermanent(l, link).links| <==>
            l.count > |l.links| || (LookupMyPermanent(l.links).Some? && l.links[0].link == link.link)
    ensures Received(l, slice, count).count >= |Received(l, slice, count).links| <==>
            LookupMyPermanent(l.links).Some? || count >= |slice|
  {
  }

  // The cache.

  /** An edit, and the link that takes the place of a revoked permanent one. */
  function EditedSlices(slices: map<nat, Links>, peer: nat, name: string, link: Link,
                        replacement: Option<Link>): map<nat, Links> {
    var edited := if peer in slices then slices[peer := Edited(slices[peer], name, link)] else slices;
    match replacement
    case None => edited
    case Some(new_) => edited[peer := Prepended(if peer in edited then edited[peer] else NO_LINKS, new_)]
  }

  /** In every list the active permanent link is the first, if there is one. */
  ghost predicate Right(slices: map<nat, Links>) {
    forall peer :: peer in slices ==> OnlyFirstActive(slices[peer].links)
  }

  class Cache {
    var firstSlices: map<nat, Links>

    function Of(peer: nat): Links
      reads this
    {
      if peer in firstSlices then firstSlices[peer] else NO_LINKS
    }

    ghost predicate Valid()
      reads this
    {
      Right(firstSlices)
    }

    constructor ()
      ensures Valid() && firstSlices == map[]
    {
      firstSlices := map[];
    }

    method PrependMyToFirstSlice(peer: nat, link: Link)
      modifies this
      ensures firstSlices == old(firstSlices)[peer := Prepended(old(Of(peer)), link)]
    {
      if peer !in firstSlices {
        firstSlices := firstSlices[peer := NO_LINKS];
      }
      var list, count := firstSlices[peer].links, firstSlices[peer].count;
      var hadPermanent := LookupMyPermanent(list).Some?;
      if link.permanent && hadPermanent {
        list := list[1..];
        if count > 0 {
          count := count - 1;
        }
      }
      count := count + 1;
      if hadPermanent && !link.permanent {
        assert list[..1] + [link] + list[1..] == [list[0], link] + list[1..];
        list := list[..1] + [link] + list[1..];
      } else {
        list := [link] + list;
      }
      firstSlices := firstSlices[peer := Links(list, count)];
    }

    /** The answer to an edit of the link `name`, and the link that replaces a revoked permanent one. */
    method EditDone(peer: nat, name: string, link: Link, replacement: Option<Link>)
      modifies this
      ensures firstSlices == EditedSlices(old(firstSlices), peer, name, link, replacement)
    {
      if peer in firstSlices {
        var list, count := firstSlices[peer].links, firstSlices[peer].count;
        var j := IndexOf(list, name);
        if j != |list| {
          if link.revoked && !list[j].revoked {
            list := list[..j] + list[j + 1..];
            if count > 0 {
              count := count - 1;
            }
          } else {
            list := list[j := link];
          }
        }
        firstSlices := firstSlices[peer := Links(list, count)];
      }
      if replacement.Some? {
        PrependMyToFirstSlice(peer, replacement.value);
      }
    }

    method ParseSlice(peer: nat, slice: seq<Link>) returns (list: seq<Link>)
      ensures list == Parsed(Of(peer), slice)
    {
      var permanent := LookupMyPermanent(Of(peer).links);
      list := [];
      for i := 0 to |slice|
        invariant list == Parsed(Of(peer), slice[..i])
      {
        assert slice[..i + 1][..i] == slice[..i] && slice[..i + 1] == slice[..i] + [slice[i]];
        if permanent.None? || slice[i].link != permanent.value.link {
          list := list + [slice[i]];
        }
      }
      assert slice[..|slice|] == slice;
    }

    /** The answer to requestMyLinks. */
    method SliceDone(peer: nat, slice: seq<Link>, count: int)
      modifies this
      ensures firstSlices == old(firstSlices)[peer := Received(old(Of(peer)), slice, count)]
    {
      var list := ParseSlice(peer, slice);
      if LookupMyPermanent(Of(peer).links).None? {
        firstSlices := firstSlices[peer := Links(BringToFront(list), count)];
      } else {
        var existing := firstSlices[peer].links;
        existing := existing[..1] + Inactive(list);
        firstSlices := firstSlices[peer := Links(existing, if count < |existing| then |existing| else count)];
      }
    }

    method SetMyPermanent(peer: nat, link: Link)
      modifies this
      ensures firstSlices == if link.permanent then old(firstSlices)[peer := WithPermanent(old(Of(peer)), link)]
                             else old(firstSlices)
    {
      if !link.permanent {
        return;
      }
      if peer !in firstSlices {
        firstSlices := firstSlices[peer := NO_LINKS];
      }
      var list, count := firstSlices[peer].links, firstSlices[peer].count;
      var permanent := LookupMyPermanent(list);
      if permanent.Some? {
        if permanent.value.link == link.link {
          assert list[0 := list[0].(usage := link.usage)] == [list[0].(usage := link.usage)] + list[1..];
          firstSlices := firstSlices[peer := Links(list[0 := permanent.value.(usage := link.usage)], count)];
          return;
        }
        list := list[1..];
        if count > 0 {
          count := count - 1;
        }
      }
      firstSlices := firstSlices[peer := Links([link] + list, count)];
    }

    method ClearMyPermanent(peer: nat)
      modifies this
      ensures firstSlices == if peer in old(firstSlices)
                             then old(firstSlices)[peer := WithoutPermanent(old(firstSlices)[peer])]
                             else old(firstSlices)
    {
      if peer !in firstSlices {
        return;
      }
      var list, count := firstSlices[peer].links, firstSlices[peer].count;
      if LookupMyPermanent(list).None? {
        return;
      }
      firstSlices := firstSlices[peer := Links(list[1..], if count > 0 then count - 1 else count)];
    }

    method ApplyExternalUpdate(peer: nat, updated: Link)
      modifies this
      ensures firstSlices == if peer in old(firstSlices)
                             then old(firstSlices)[peer := Links(Replaced(old(firstSlices)[peer].links, updated),
                                                                 old(firstSlices)[peer].count)]
                             else old(firstSlices)
    {
      if peer !in firstSlices {
        return;
      }
      var was := firstSlices[peer].links;
      var list := was;
      for k := 0 to |was|
        invariant |list| == |was|
        invariant forall j :: 0 <= j < |was| ==>
                    list[j] == if j < k && was[j].link == updated.link then updated else was[j]
      {
        if list[k].link == updated.link {
          list := list[k := updated];
        }
      }
      assert list == Replaced(was, updated);
      firstSlices := firstSlices[peer := Links(list, firstSlices[peer].count)];
    }

    /** Somebody was let in by a link that is not known: what is cached may be wrong. */
    method Forget(peer: nat)
      modifies this
      ensures firstSlices == old(firstSlices) - {peer}
    {
      firstSlices := firstSlices - {peer};
    }
  }

  // Whole runs.

  datatype Event =
    | Created(peer: nat, link: Link)
    | EditAnswer(peer: nat, name: string, link: Link, replacement: Option<Link>)
    | SliceAnswer(peer: nat, slice: seq<Link>, count: int)
    | SetPermanent(peer: nat, link: Link)
    | ClearPermanent(peer: nat)
    | External(peer: nat, link: Link)
    | Approved(peer: nat)

  /**
   * What is trusted: no link behind the first becomes an active permanent one, and a page that
   * comes when none is known has at most one.
   */
  predicate Trusted(list: seq<Link>, event: Event) {
    match event
    case EditAnswer(_, name, link, _) => !(link.Active() && 0 < IndexOf(list, name) < |list|)
    case External(_, link) => !(link.Active() && exists k :: 0 < k < |list| && list[k].link == link.link)
    case SliceAnswer(_, slice, _) => LookupMyPermanent(list).Some? || AtMostOneActive(slice)
    case _ => true
  }

  /** A server that changes neither which links are permanent nor that one is revoked is trusted. */
  lemma SteadyServer(list: seq<Link>, name: string, link: Link)
    requires OnlyFirstActive(list)
    requires forall k :: 0 <= k < |list| && list[k].link == name ==>
               list[k].permanent == link.permanent && (list[k].revoked ==> link.revoked)
    ensures !(link.Active() && 0 < IndexOf(list, name) < |list|)
    ensures !(link.Active() && exists k :: 0 < k < |list| && list[k].link == name)
  {
  }

  function LinksOf(slices: map<nat, Links>, peer: nat): Links {
    if peer in slices then slices[peer] else NO_LINKS
  }

  /** The cache after an event. */
  function Next(slices: map<nat, Links>, event: Event): map<nat, Links> {
    var l := LinksOf(slices, event.peer);
    match event
    case Created(peer, link) => slices[peer := Prepended(l, link)]
    case EditAnswer(peer, name, link, replacement) => EditedSlices(slices, peer, name, link, replacement)
    case SliceAnswer(peer, slice, count) => slices[peer := Received(l, slice, count)]
    case SetPermanent(peer, link) => if link.permanent then slices[peer := WithPermanent(l, link)] else slices
    case ClearPermanent(peer) => if peer in slices then slices[peer := WithoutPermanent(l)] else slices
    case External(peer, link) =>
      if peer in slices then slices[peer := Links(Replaced(l.links, link), l.count)] else slices
    case Approved(peer) => slices - {peer}
  }

  /** The cache after the events. */
  function Applied(events: seq<Event>): map<nat, Links> {
    if events == [] then map[] else Next(Applied(events[..|events| - 1]), events[|events| - 1])
  }

  lemma OneListKeeps(slices: map<nat, Links>, event: Event)
    requires Right(slices)
    ensures OnlyFirstActive(LinksOf(Next(slices, event), event.peer).links)
       <==> Trusted(LinksOf(slices, event.peer).links, event)
  {
    var l := LinksOf(slices, event.peer);
    match event
    case Created(_, link) => PrependedKeeps(l, link);
    case EditAnswer(_, name, link, replacement) =>
      EditedKeeps(l, name, link);
      if replacement.Some? {
        PrependedKeeps(Edited(l, name, link), replacement.value);
      }
    case SliceAnswer(_, slice, count) => ReceivedKeeps(l, slice, count);
    case SetPermanent(_, link) =>
      if link.permanent {
        WithPermanentKeeps(l, link);
      }
    case ClearPermanent(_) => WithoutPermanentKeeps(l);
    case External(_, link) => ReplacedKeeps(l.links, link);
    case Approved(_) =>
  }

  lemma OtherPeers(slices: map<nat, Links>, event: Event, peer: nat)
    requires peer != event.peer
    ensures LinksOf(Next(slices, event), peer) == LinksOf(slices, peer)
    ensures peer in Next(slices, event) <==> peer in slices
  {
  }

  /** An event keeps the cache right exactly if it is trusted. */
  lemma NextKeeps(slices: map<nat, Links>, event: Event)
    requires Right(slices)
    ensures Right(Next(slices, event)) <==> Trusted(LinksOf(slices, event.peer).links, event)
  {
    OneListKeeps(slices, event);
    var next := Next(slices, event);
    forall peer | peer in next && peer != event.peer ensures OnlyFirstActive(next[peer].links) {
      OtherPeers(slices, event, peer);
    }
  }

  /**
   * What a reader sees after an event: a new active permanent link, also one that is set, is the one looked up;
   * a cleared one is not; an external update is seen wherever its link is; and after somebody was let in nothing
   * is cached. Only clearing and external updates leave a chat that is not cached as it is.
   */
  lemma NextShows(slices: map<nat, Links>, event: Event)
    requires Right(slices)
    ensures var list, permanent := LinksOf(Next(slices, event), event.peer).links,
                                   LookupMyPermanent(LinksOf(Next(slices, event), event.peer).links);
            match event
            case Created(_, link) => link in list && (link.Active() ==> permanent == Some(link))
            case EditAnswer(_, _, _, replacement) =>
              replacement.Some? && replacement.value.Active() ==> permanent == replacement
            case SliceAnswer(_, slice, _) => permanent.Some? || Search(slice).None?
            case SetPermanent(_, link) => link.Active() ==> permanent.Some? && permanent.value.link == link.link
            case ClearPermanent(_) => permanent.None?
            case External(_, link) => forall x :: x in list && x.link == link.link ==> x == link
            case Approved(_) => event.peer !in Next(slices, event)
    ensures event.ClearPermanent? || event.External? ==> Next(slices, event).Keys == slices.Keys
    ensures event.Created? || event.SliceAnswer? || (event.SetPermanent? && event.link.permanent) ==>
              Next(slices, event).Keys == slices.Keys + {event.peer}
  {
    var l := LinksOf(slices, event.peer);
    match event
    case Created(_, link) => PrependedKeeps(l, link);
    case EditAnswer(_, name, link, replacement) =>
      if replacement.Some? {
        PrependedKeeps(Edited(l, name, link), replacement.value);
      }
    case SliceAnswer(_, slice, count) => ReceivedKeeps(l, slice, count);
    case SetPermanent(_, link) =>
      if link.permanent {
        WithPermanentKeeps(l, link);
      }
    case ClearPermanent(_) => WithoutPermanentKeeps(l);
    case External(_, link) => ReplacedMeans(l.links, link);
    case Approved(_) =>
  }

  /** Each event is trusted when it comes. */
  predicate TrustedThroughout(events: seq<Event>) {
    events == [] ||
    var before, event := events[..|events| - 1], events[|events| - 1];
    TrustedThroughout(before) && Trusted(LinksOf(Applied(before), event.peer).links, event)
  }

  /** The cache is right now and was after each event before. */
  ghost predicate RightThroughout(events: seq<Event>) {
    Right(Applied(events)) && (events == [] || RightThroughout(events[..|events| - 1]))
  }

  /** The cache is right at every moment of a run exactly if each event is trusted when it comes. */
  lemma {:induction false} RightIfTrusted(events: seq<Event>)
    ensures RightThroughout(events) <==> TrustedThroughout(events)
  {
    if events != [] {
      var before, event := events[..|events| - 1], events[|events| - 1];
      RightIfTrusted(before);
      if Right(Applied(before)) {
        NextKeeps(Applied(before), event);
      }
    }
  }

  // A server that contradicts itself in nothing is trusted throughout.

  /** What is said of a link. */
  datatype Flags = Flags(name: string, permanent: bool, revoked: bool)

  function FlagsOf(l: Link): Flags {
    Flags(l.link, l.permanent, l.revoked)
  }

  function ListFlags(list: seq<Link>): set<Flags> {
    set l | l in list :: FlagsOf(l)
  }

  /** The links an event speaks of. */
  function Told(event: Event): set<Flags> {
    match event
    case Created(_, link) => {FlagsOf(link)}
    case EditAnswer(_, _, link, replacement) =>
      {FlagsOf(link)} + if replacement.Some? then {FlagsOf(replacement.value)} else {}
    case SliceAnswer(_, slice, _) => ListFlags(slice)
    case SetPermanent(_, link) => {FlagsOf(link)}
    case ClearPermanent(_) => {}
    case External(_, link) => {FlagsOf(link)}
    case Approved(_) => {}
  }

  /** Those all events of a chat have spoken of. */
  function ToldOf(events: seq<Event>, peer: nat): set<Flags> {
    if events == [] then {}
    else
      var event := events[|events| - 1];
      ToldOf(events[..|events| - 1], peer) + if event.peer == peer then Told(event) else {}
  }

  predicate Steadily(told: set<Flags>, event: Event) {
    && (forall was, now :: was in told && now in Told(event) && was.name == now.name ==>
          was.permanent == now.permanent && (was.revoked ==> now.revoked))
    && (event.EditAnswer? ==> event.link.link == event.name)
    && (event.SliceAnswer? ==> AtMostOneActive(event.slice))
  }

  /**
   * What is said of a link of a chat agrees with all that was said of it before: whether it is
   * permanent never changes, and a revoked link stays revoked. An edit answers with the link it is
   * about, and a page has at most one active permanent link.
   */
  predicate Steady(events: seq<Event>) {
    events == [] ||
    var before, event := events[..|events| - 1], events[|events| - 1];
    Steady(before) && Steadily(ToldOf(before, event.peer), event)
  }

  /** What is said of a cached link was said by the server. */
  lemma NextFlags(slices: map<nat, Links>, event: Event)
    ensures ListFlags(LinksOf(Next(slices, event), event.peer).links)
         <= ListFlags(LinksOf(slices, event.peer).links) + Told(event)
  {
    var l := LinksOf(slices, event.peer);
    match event
    case Created(_, link) => PrependedFlags(l, link);
    case EditAnswer(_, name, link, replacement) =>
      EditedFlags(l, name, link);
      if replacement.Some? {
        PrependedFlags(Edited(l, name, link), replacement.value);
      }
    case SliceAnswer(_, slice, count) => ReceivedFlags(l, slice, count);
    case SetPermanent(_, link) =>
      if link.permanent {
        WithPermanentFlags(l, link);
      }
    case ClearPermanent(_) =>
    case External(_, link) => ReplacedFlags(l.links, link);
    case Approved(_) =>
  }

  /** The link that is shown already keeps its flags. */
  lemma WithPermanentFlags(l: Links, link: Link)
    ensures ListFlags(WithPermanent(l, link).links) <= ListFlags(l.links) + {FlagsOf(link)}
  {
    var permanent := LookupMyPermanent(l.links);
    if permanent.Some? {
      assert FlagsOf(permanent.value.(usage := link.usage)) == FlagsOf(l.links[0]);
    }
  }

  lemma ReplacedFlags(list: seq<Link>, link: Link)
    ensures ListFlags(Replaced(list, link)) <= ListFlags(list) + {FlagsOf(link)}
  {
    var r := Replaced(list, link);
    forall k | 0 <= k < |r| ensures FlagsOf(r[k]) in ListFlags(list) + {FlagsOf(link)} {
      assert list[k] in list;
    }
  }

  lemma PrependedFlags(l: Links, link: Link)
    ensures ListFlags(Prepended(l, link).links) <= ListFlags(l.links) + {FlagsOf(link)}
  {
  }

  lemma EditedFlags(l: Links, name: string, link: Link)
    ensures ListFlags(Edited(l, name, link).links) <= ListFlags(l.links) + {FlagsOf(link)}
  {
  }

  lemma ReceivedFlags(known: Links, slice: seq<Link>, count: int)
    ensures ListFlags(Received(known, slice, count).links) <= ListFlags(known.links) + ListFlags(slice)
  {
    var parsed := Parsed(known, slice);
    assert forall l :: l in BringToFront(parsed) ==> l in parsed;
  }

  lemma SteadyEvent(list: seq<Link>, told: set<Flags>, event: Event)
    requires OnlyFirstActive(list) && ListFlags(list) <= told && Steadily(told, event)
    ensures Trusted(list, event)
  {
    if event.EditAnswer? || event.External? {
      forall k | 0 <= k < |list| && list[k].link == event.link.link
        ensures list[k].permanent == event.link.permanent && (list[k].revoked ==> event.link.revoked)
      {
        assert FlagsOf(list[k]) in ListFlags(list) && FlagsOf(event.link) in Told(event);
      }
      SteadyServer(list, event.link.link, event.link);
    }
  }

  /** The flags of each cached link are those of something said of its chat before. */
  lemma {:induction false} CachedFlags(events: seq<Event>, peer: nat)
    ensures ListFlags(LinksOf(Applied(events), peer).links) <= ToldOf(events, peer)
  {
    if events != [] {
      var before, event := events[..|events| - 1], events[|events| - 1];
      CachedFlags(before, peer);
      if event.peer == peer {
        NextFlags(Applied(before), event);
      } else {
        OtherPeers(Applied(before), event, peer);
      }
    }
  }

  lemma {:induction false} SteadyIsTrusted(events: seq<Event>)
    requires Steady(events)
    ensures TrustedThroughout(events)
  {
    if events != [] {
      var before, event := events[..|events| - 1], events[|events| - 1];
      SteadyIsTrusted(before);
      RightIfTrusted(before);
      CachedFlags(before, event.peer);
      SteadyEvent(LinksOf(Applied(before), event.peer).links, ToldOf(before, event.peer), event);
    }
  }

  // Revoked links.

  predicate NoneRevoked(list: seq<Link>) {
    forall x :: x in list ==> !x.revoked
  }

  /** Nothing that comes is revoked, but for what an edit has revoked. */
  predicate BringsNoneRevoked(event: Event) {
    match event
    case Created(_, link) => !link.revoked
    case EditAnswer(_, _, _, replacement) => replacement.Some? ==> !replacement.value.revoked
    case SliceAnswer(_, slice, _) => NoneRevoked(slice)
    case SetPermanent(_, link) => !link.revoked
    case ClearPermanent(_) => true
    case External(_, link) => !link.revoked
    case Approved(_) => true
  }

  lemma NoneRevokedNext(slices: map<nat, Links>, event: Event)
    requires NoneRevoked(LinksOf(slices, event.peer).links) && BringsNoneRevoked(event)
    ensures NoneRevoked(LinksOf(Next(slices, event), event.peer).links)
  {
    var l := LinksOf(slices, event.peer);
    match event
    case Created(_, link) => NonePrepended(l, link);
    case EditAnswer(_, name, link, replacement) =>
      NoneEdited(l, name, link);
      if replacement.Some? {
        NonePrepended(Edited(l, name, link), replacement.value);
      }
    case SliceAnswer(_, slice, count) => NoneReceived(l, slice, count);
    case SetPermanent(_, link) => NoneWithPermanent(l, link);
    case ClearPermanent(_) =>
    case External(_, link) => NoneReplaced(l.links, link);
    case Approved(_) =>
  }

  lemma NonePrepended(l: Links, link: Link)
    requires NoneRevoked(l.links) && !link.revoked
    ensures NoneRevoked(Prepended(l, link).links)
  {
  }

  lemma NoneEdited(l: Links, name: string, link: Link)
    requires NoneRevoked(l.links)
    ensures NoneRevoked(Edited(l, name, link).links)
  {
    EditedRevokes(l, name, link);
  }

  lemma NoneWithPermanent(l: Links, link: Link)
    requires NoneRevoked(l.links) && !link.revoked
    ensures NoneRevoked(WithPermanent(l, link).links)
  {
  }

  lemma NoneReplaced(list: seq<Link>, link: Link)
    requires NoneRevoked(list) && !link.revoked
    ensures NoneRevoked(Replaced(list, link))
  {
  }

  lemma NoneReceived(known: Links, slice: seq<Link>, count: int)
    requires NoneRevoked(known.links) && NoneRevoked(slice)
    ensures NoneRevoked(Received(known, slice, count).links)
  {
    var parsed := Parsed(known, slice);
    assert forall l :: l in BringToFront(parsed) ==> l in parsed;
  }

  /** No revoked link is cached: what an edit revokes leaves. */
  lemma {:induction false} NoRevokedCached(events: seq<Event>, peer: nat)
    requires forall event :: event in events ==> BringsNoneRevoked(event)
    ensures NoneRevoked(LinksOf(Applied(events), peer).links)
  {
    if events != [] {
      var before, event := events[..|events| - 1], events[|events| - 1];
      assert forall e :: e in before ==> e in events;
      NoRevokedCached(before, peer);
      if event.peer == peer {
        NoneRevokedNext(Applied(before), event);
      } else {
        OtherPeers(Applied(before), event, peer);
      }
    }
  }

  method Handle(cache: Cache, event: Event)
    modifies cache
    ensures cache.firstSlices == Next(old(cache.firstSlices), event)
    ensures old(cache.Valid()) ==> (old(Trusted(cache.Of(event.peer).links, event)) <==> cache.Valid())
  {
    if cache.Valid() {
      NextKeeps(cache.firstSlices, event);
    }
    match event
    case Created(peer, link) => cache.PrependMyToFirstSlice(peer, link);
    case EditAnswer(peer, name, link, replacement) => cache.EditDone(peer, name, link, replacement);
    case SliceAnswer(peer, slice, count) => cache.SliceDone(peer, slice, count);
    case SetPermanent(peer, link) => cache.SetMyPermanent(peer, link);
    case ClearPermanent(peer) => cache.ClearMyPermanent(peer);
    case External(peer, link) => cache.ApplyExternalUpdate(peer, link);
    case Approved(peer) => cache.Forget(peer);
  }

  /**
   * Any events in any order. The cache is right all the time exactly if each event was trusted when it
   * came, and it is if the server is steady. Then the lookup is a search, for every peer.
   */
  method Run(events: seq<Event>) returns (cache: Cache)
    ensures fresh(cache) && cache.firstSlices == Applied(events)
    ensures TrustedThroughout(events) <==> RightThroughout(events)
    ensures Steady(events) ==> RightThroughout(events) && cache.Valid()
    ensures (forall event :: event in events ==> BringsNoneRevoked(event)) ==>
              forall peer :: NoneRevoked(cache.Of(peer).links)
    ensures cache.Valid() ==>
              forall peer :: LookupMyPermanent(cache.Of(peer).links) == Search(cache.Of(peer).links)
  {
    cache := new Cache();
    for i := 0 to |events|
      invariant fresh(cache) && cache.firstSlices == Applied(events[..i])
    {
      assert events[..i + 1][..i] == events[..i];
      Handle(cache, events[i]);
    }
    assert events[..|events|] == events;
    RightIfTrusted(events);
    if Steady(events) {
      SteadyIsTrusted(events);
    }
    if forall event :: event in events ==> BringsNoneRevoked(event) {
      forall peer: nat ensures NoneRevoked(cache.Of(peer).links) {
        NoRevokedCached(events, peer);
      }
    }
    if cache.Valid() {
      forall peer: nat ensures LookupMyPermanent(cache.Of(peer).links) == Search(cache.Of(peer).links) {
        LookupIsSearch(cache.Of(peer).links);
      }
    }
  }

  /** A permanent link set when nothing is known yet: one link, and a count of none. */
  method CountFallsBehind(peer: nat, link: Link) returns (cache: Cache)
    requires link.Active()
    ensures cache.Valid() && cache.firstSlices == map[peer := Links([link], 0)]
  {
    cache := new Cache();
    cache.SetMyPermanent(peer, link);
    assert [link] + [] == [link];
  }
}
