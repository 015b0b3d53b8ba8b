/** Document trees: the heap of nodes, and the values it stands for. */
module Dom {
  datatype Kind = Element | Text | Comment | Other(code: nat)

  datatype Attr = Attr(name: string, value: string)

  class Node {
    const kind: Kind
    const name: string
    var value: string
    var attrs: seq<Attr>
    var children: seq<Node>

    constructor (kind: Kind, name: string)
      ensures this.kind == kind && this.name == name
      ensures value == "" && attrs == [] && children == []
    {
      this.kind, this.name := kind, name;
      value, attrs, children := "", [], [];
    }
  }

  /** A tree of nodes together with what each node holds. */
  datatype Tree = Tree(node: Node, kind: Kind, name: string, value: string, attrs: map<string, string>, kids: seq<Tree>)

  // Attribute lists.

  predicate UniqueNames(a: seq<Attr>) {
    forall i, j :: 0 <= i < j < |a| ==> a[i].name != a[j].name
  }

  /** The list a, in whatever order, holds exactly the attributes m. */
  ghost predicate AttrsAre(a: seq<Attr>, m: map<string, string>) {
    && UniqueNames(a)
    && (forall i :: 0 <= i < |a| ==> a[i].name in m && m[a[i].name] == a[i].value)
    && (forall n :: n in m ==> exists i :: 0 <= i < |a| && a[i].name == n)
  }

  // The nodes of a tree.

  ghost function Nodes(t: Tree): set<Node> { {t.node} + NodesAll(t.kids) }

  ghost function NodesAll(f: seq<Tree>): set<Node> {
    set i, n | 0 <= i < |f| && n in Nodes(f[i]) :: n
  }

  ghost function Heads(f: seq<Tree>): (s: seq<Node>)
    ensures |s| == |f| && forall i :: 0 <= i < |f| ==> s[i] == f[i].node
  {
    seq(|f|, i requires 0 <= i < |f| => f[i].node)
  }

  /** No node occurs twice. */
  ghost predicate Separate(t: Tree) {
    t.node !in NodesAll(t.kids) && SeparateAll(t.kids)
  }

  ghost predicate SeparateAll(f: seq<Tree>) {
    && (forall i :: 0 <= i < |f| ==> Separate(f[i]))
    && (forall i, j :: 0 <= i < j < |f| ==> Nodes(f[i]) !! Nodes(f[j]))
  }

  /** The heap holds exactly this tree. */
  ghost predicate Holds(t: Tree)
    reads Nodes(t)
  {
    && t.node.kind == t.kind && t.node.name == t.name && t.node.value == t.value
    && AttrsAre(t.node.attrs, t.attrs)
    && t.node.children == Heads(t.kids)
    && HoldsAll(t.kids)
  }

  ghost predicate HoldsAll(f: seq<Tree>)
    reads NodesAll(f)
  {
    forall i :: 0 <= i < |f| ==> Holds(f[i])
  }

  lemma NodesTail(f: seq<Tree>)
    requires |f| > 0
    ensures NodesAll(f) == Nodes(f[0]) + NodesAll(f[1..])
  {
    forall n | n in NodesAll(f) ensures n in Nodes(f[0]) + NodesAll(f[1..]) {
      var i :| 0 <= i < |f| && n in Nodes(f[i]);
      if i > 0 {
        assert f[i] == f[1..][i - 1];
      }
    }
    forall n | n in NodesAll(f[1..]) ensures n in NodesAll(f) {
      var i :| 0 <= i < |f[1..]| && n in Nodes(f[1..][i]);
      assert f[1..][i] == f[i + 1];
    }
  }

  lemma SeparateTail(f: seq<Tree>)
    requires |f| > 0 && SeparateAll(f)
    ensures SeparateAll(f[1..])
  {
    var g := f[1..];
    forall i | 0 <= i < |g| ensures Separate(g[i]) {
      assert g[i] == f[i + 1];
    }
    forall i, j | 0 <= i < j < |g| ensures Nodes(g[i]) !! Nodes(g[j]) {
      assert g[i] == f[i + 1] && g[j] == f[j + 1];
    }
  }

  lemma HeadsTail(f: seq<Tree>)
    requires |f| > 0
    ensures Heads(f) == [f[0].node] + Heads(f[1..])
  {
  }

  lemma HeadsShift(kids: seq<Tree>, rest: seq<Tree>, r: Tree)
    requires |rest| > 0 && r.node == rest[0].node
    ensures Heads(kids + [r]) + Heads(rest[1..]) == Heads(kids) + Heads(rest)
  {
    assert Heads(kids + [r]) == Heads(kids) + [r.node];
    HeadsTail(rest);
  }

  lemma HeadsFrom(s: seq<Node>, k: nat, f: seq<Tree>)
    requires k <= |s| && s[k..] == Heads(f) && |f| > 0
    ensures k < |s| && s[k] == f[0].node && s[k + 1..] == Heads(f[1..])
  {
    HeadsTail(f);
    assert s[k + 1..] == s[k..][1..];
  }

  lemma HeadsWithout(s: seq<Node>, kids: seq<Tree>, rest: seq<Tree>)
    requires s == Heads(kids) + Heads(rest) && |rest| > 0
    ensures s[|kids|] == rest[0].node
    ensures s[..|kids|] + s[|kids| + 1..] == Heads(kids) + Heads(rest[1..])
  {
    HeadsTail(rest);
  }

  lemma Advance(f: seq<Tree>, n: nat, todo: seq<Tree>)
    requires n <= |f| && todo == f[n..] && |todo| > 0
    ensures todo[0] == f[n] && todo[1..] == f[n + 1..] && f[..n + 1] == f[..n] + [todo[0]]
  {
  }

  lemma ApartFromAll(s: set<Node>, f: seq<Tree>)
    requires forall i :: 0 <= i < |f| ==> s !! Nodes(f[i])
    ensures s !! NodesAll(f)
  {
  }

  lemma Tail(f: seq<Tree>)
    requires |f| > 0 && SeparateAll(f)
    ensures NodesAll(f) == Nodes(f[0]) + NodesAll(f[1..])
    ensures Separate(f[0]) && SeparateAll(f[1..]) && Nodes(f[0]) !! NodesAll(f[1..])
    ensures Heads(f) == [f[0].node] + Heads(f[1..])
  {
    NodesTail(f);
    SeparateTail(f);
    HeadsTail(f);
    var g := f[1..];
    forall i | 0 <= i < |g| ensures Nodes(f[0]) !! Nodes(g[i]) {
      assert g[i] == f[i + 1] && Nodes(f[0]) !! Nodes(f[i + 1]);
    }
    ApartFromAll(Nodes(f[0]), g);
  }

  lemma NodesAppend(f: seq<Tree>, t: Tree)
    ensures NodesAll(f + [t]) == NodesAll(f) + Nodes(t)
    ensures Heads(f + [t]) == Heads(f) + [t.node]
  {
    var g := f + [t];
    forall n | n in NodesAll(g) ensures n in NodesAll(f) + Nodes(t) {
      var i :| 0 <= i < |g| && n in Nodes(g[i]);
      if i < |f| {
        assert g[i] == f[i];
      }
    }
    forall n | n in NodesAll(f) ensures n in NodesAll(g) {
      var i :| 0 <= i < |f| && n in Nodes(f[i]);
      assert g[i] == f[i];
    }
    assert g[|f|] == t;
  }

  lemma SeparateAppend(f: seq<Tree>, t: Tree)
    requires SeparateAll(f) && Separate(t) && NodesAll(f) !! Nodes(t)
    ensures SeparateAll(f + [t])
  {
    var g := f + [t];
    forall i | 0 <= i < |g| ensures Separate(g[i]) {
      assert g[i] == if i < |f| then f[i] else t;
    }
    forall i, j | 0 <= i < j < |g| ensures Nodes(g[i]) !! Nodes(g[j]) {
      assert g[i] == f[i] && forall n :: n in Nodes(f[i]) ==> n in NodesAll(f);
      assert g[j] == if j < |f| then f[j] else t;
    }
  }

  lemma HoldsTail(f: seq<Tree>)
    requires |f| > 0 && HoldsAll(f)
    ensures Holds(f[0]) && HoldsAll(f[1..])
  {
    var g := f[1..];
    forall i | 0 <= i < |g| ensures Holds(g[i]) {
      assert g[i] == f[i + 1];
    }
  }

  lemma HoldsAppend(f: seq<Tree>, t: Tree)
    requires HoldsAll(f) && Holds(t)
    ensures HoldsAll(f + [t])
  {
    var g := f + [t];
    forall i | 0 <= i < |g| ensures Holds(g[i]) {
      assert g[i] == if i < |f| then f[i] else t;
    }
  }

  // Comparing trees.

  function Upper(s: string): string {
    seq(|s|, i requires 0 <= i < |s| => if 'a' <= s[i] <= 'z' then (s[i] as int - 32) as char else s[i])
  }

  /** Element names match, or match once the one that starts in lower case is put in upper case. */
  predicate CompareNodeNames(from: string, to: string) {
    if from == to then true
    else if |from| == 0 || |to| == 0 then false
    else if from[0] <= 'Z' && 'a' <= to[0] then from == Upper(to)
    else if to[0] <= 'Z' && 'a' <= from[0] then to == Upper(from)
    else false
  }

  const LOWER_CASE := "abcdefghijklmnopqrstuvwxyz"
  const UPPER_CASE := "ABCDEFGHIJKLMNOPQRSTUVWXYZ"

  /** Upper puts each of the twenty-six letters in upper case and changes nothing else. */
  lemma UpperMeans(s: string, i: nat)
    requires i < |s|
    ensures |Upper(s)| == |s|
    ensures forall k :: 0 <= k < 26 && s[i] == LOWER_CASE[k] ==> Upper(s)[i] == UPPER_CASE[k]
    ensures s[i] !in LOWER_CASE ==> Upper(s)[i] == s[i]
  {
    forall k | 0 <= k < 26 && s[i] == LOWER_CASE[k] ensures Upper(s)[i] == UPPER_CASE[k] {
      Alphabets(k);
    }
    LetterMeans(s[i]);
  }

  lemma Alphabets(k: nat)
    requires k < 26
    ensures LOWER_CASE[k] as int == 'a' as int + k && UPPER_CASE[k] as int == 'A' as int + k
  {
  }

  lemma LetterMeans(c: char)
    ensures c in LOWER_CASE <==> 'a' <= c <= 'z'
  {
    if 'a' <= c <= 'z' {
      Alphabets(c as int - 'a' as int);
    }
    if k :| 0 <= k < |LOWER_CASE| && LOWER_CASE[k] == c {
      Alphabets(k);
    }
  }

  predicate StartsUpper(s: string) {
    |s| > 0 && s[0] <= 'Z'
  }

  predicate StartsLower(s: string) {
    |s| > 0 && 'a' <= s[0]
  }

  /** Names that match are one name up to letter case, whichever of the two is in upper case. */
  lemma NamesMatch(x: string, y: string)
    ensures CompareNodeNames(x, y) ==> Upper(x) == Upper(y)
    ensures CompareNodeNames(x, y) <==> CompareNodeNames(y, x)
    ensures StartsUpper(x) && StartsLower(y) && x == Upper(y) ==> CompareNodeNames(x, y)
    ensures !(StartsUpper(x) && StartsLower(y)) && !(StartsLower(x) && StartsUpper(y)) ==>
              (CompareNodeNames(x, y) <==> x == y)
  {
    forall s | |s| > 0 ensures Upper(Upper(s)) == Upper(s) {
      assert forall i :: 0 <= i < |s| ==> Upper(Upper(s))[i] == Upper(s)[i];
    }
  }

  /** A name in lower case and the same name in upper case match, both ways. */
  lemma CasesMatch(s: string)
    requires |s| > 0 && s[0] in LOWER_CASE
    ensures CompareNodeNames(s, Upper(s)) && CompareNodeNames(Upper(s), s)
  {
    assert 'a' <= s[0] <= 'z' && Upper(s)[0] <= 'Z';
  }

  /** The same document, up to which nodes hold it and up to compareNodeNames. */
  ghost predicate Same(a: Tree, b: Tree) {
    && a.kind == b.kind && CompareNodeNames(a.name, b.name) && a.value == b.value && a.attrs == b.attrs
    && SameAll(a.kids, b.kids)
  }

  ghost predicate SameAll(f: seq<Tree>, g: seq<Tree>) {
    |f| == |g| && forall i :: 0 <= i < |f| ==> Same(f[i], g[i])
  }

  /** Every name in one is the other's up to letter case. */
  ghost predicate NamesAlike(a: Tree, b: Tree) {
    && Upper(a.name) == Upper(b.name) && |a.kids| == |b.kids|
    && forall i :: 0 <= i < |a.kids| ==> NamesAlike(a.kids[i], b.kids[i])
  }

  lemma {:induction false} SameNames(a: Tree, b: Tree)
    requires Same(a, b)
    ensures NamesAlike(a, b)
  {
    NamesMatch(a.name, b.name);
    forall i | 0 <= i < |a.kids| ensures NamesAlike(a.kids[i], b.kids[i]) {
      SameNames(a.kids[i], b.kids[i]);
    }
  }

  lemma SameAppend(f: seq<Tree>, g: seq<Tree>, a: Tree, b: Tree)
    requires SameAll(f, g) && Same(a, b)
    ensures SameAll(f + [a], g + [b])
  {
  }

  /** What isEqualNode compares: everything but the nodes themselves. */
  ghost predicate EqualTrees(a: Tree, b: Tree) {
    && a.kind == b.kind && a.name == b.name && a.value == b.value && a.attrs == b.attrs
    && EqualAll(a.kids, b.kids)
  }

  ghost predicate EqualAll(f: seq<Tree>, g: seq<Tree>) {
    |f| == |g| && forall i :: 0 <= i < |f| ==> EqualTrees(f[i], g[i])
  }

  lemma {:induction false} EqualIsSame(a: Tree, b: Tree)
    requires EqualTrees(a, b)
    ensures Same(a, b)
  {
    forall i | 0 <= i < |a.kids| ensures Same(a.kids[i], b.kids[i]) {
      EqualIsSame(a.kids[i], b.kids[i]);
    }
  }

  lemma {:induction false} EqualToItself(a: Tree)
    ensures EqualTrees(a, a)
  {
    forall i | 0 <= i < |a.kids| ensures EqualTrees(a.kids[i], a.kids[i]) {
      EqualToItself(a.kids[i]);
    }
  }

  /** Names as HTML documents report them: nothing starts with a lower-case letter. */
  ghost predicate UpperNames(t: Tree) {
    (|t.name| > 0 ==> t.name[0] <= 'Z') && forall i :: 0 <= i < |t.kids| ==> UpperNames(t.kids[i])
  }

  /** Between HTML documents the same document means equal trees. */
  lemma {:induction false} SameIsEqual(a: Tree, b: Tree)
    requires UpperNames(a) && UpperNames(b)
    ensures Same(a, b) <==> EqualTrees(a, b)
  {
    forall i | 0 <= i < |a.kids| && i < |b.kids|
      ensures Same(a.kids[i], b.kids[i]) <==> EqualTrees(a.kids[i], b.kids[i])
    {
      SameIsEqual(a.kids[i], b.kids[i]);
    }
  }

  /** Whatever was edited into the same document, by whatever route, is the same tree. */
  lemma {:induction false} OneResult(a: Tree, b: Tree, target: Tree)
    requires Same(a, target) && Same(b, target)
    requires UpperNames(a) && UpperNames(b) && UpperNames(target)
    ensures EqualTrees(a, b)
  {
    forall i | 0 <= i < |a.kids| ensures EqualTrees(a.kids[i], b.kids[i]) {
      OneResult(a.kids[i], b.kids[i], target.kids[i]);
    }
  }

  /** Every name a tree holds is the name of one of its nodes. */
  lemma {:induction false} NamesOfNodes(t: Tree)
    requires Holds(t) && forall n :: n in Nodes(t) && |n.name| > 0 ==> n.name[0] <= 'Z'
    ensures UpperNames(t)
  {
    assert t.node in Nodes(t);
    forall i | 0 <= i < |t.kids| ensures UpperNames(t.kids[i]) {
      assert forall n :: n in Nodes(t.kids[i]) ==> n in NodesAll(t.kids);
      NamesOfNodes(t.kids[i]);
    }
  }

  // Which documents are meant.

  const SPECIAL: set<string> := {"OPTION", "INPUT", "TEXTAREA", "SELECT"}

  /**
   * No node has a non-empty id, no element is a form element with a handler of its own, and only elements have
   * children.
   */
  ghost predicate Plain(t: Tree) {
    && ("id" in t.attrs ==> t.attrs["id"] == "")
    && t.name !in SPECIAL
    && (t.kind.Text? ==> t.name == "#text")
    && (t.kind.Comment? ==> t.name == "#comment")
    && (t.kind.Element? ==> t.value == "")
    && (!t.kind.Element? ==> t.kids == [] && t.attrs == map[])
    && PlainAll(t.kids)
  }

  ghost predicate PlainAll(f: seq<Tree>) {
    forall i :: 0 <= i < |f| ==> Plain(f[i])
  }

  lemma PlainTail(f: seq<Tree>)
    requires |f| > 0 && PlainAll(f)
    ensures Plain(f[0]) && PlainAll(f[1..])
  {
    var g := f[1..];
    forall i | 0 <= i < |g| ensures Plain(g[i]) {
      assert g[i] == f[i + 1];
    }
  }
}

/** morphdom on trees without ids: edits one tree, in place, into another. */
module Morphdom {
  import opened Dom

  // The DOM operations it uses.

  function IndexOf(a: seq<Attr>, name: string): (i: int)
    ensures -1 <= i < |a|
    ensures i >= 0 ==> a[i].name == name
    ensures i < 0 ==> forall j :: 0 <= j < |a| ==> a[j].name != name
  {
    if |a| == 0 then -1
    else if a[|a| - 1].name == name then |a| - 1
    else IndexOf(a[..|a| - 1], name)
  }

  method SetAttribute(n: Node, name: string, value: string, ghost m: map<string, string>)
    requires AttrsAre(n.attrs, m)
    modifies n`attrs
    ensures AttrsAre(n.attrs, m[name := value])
  {
    var i := IndexOf(n.attrs, name);
    if i >= 0 {
      n.attrs := n.attrs[i := Attr(name, value)];
    } else {
      n.attrs := n.attrs + [Attr(name, value)];
    }
    ghost var m' := m[name := value];
    forall k | k in m' ensures exists j :: 0 <= j < |n.attrs| && n.attrs[j].name == k {
      if k == name {
        assert n.attrs[if i >= 0 then i else |n.attrs| - 1].name == k;
      } else {
        var j :| 0 <= j < |old(n.attrs)| && old(n.attrs)[j].name == k;
        assert n.attrs[j].name == k;
      }
    }
  }

  lemma UniqueWithout(a: seq<Attr>, at: nat, b: seq<Attr>)
    requires UniqueNames(a) && at < |a| && b == a[..at] + a[at + 1..]
    ensures UniqueNames(b)
    ensures forall j :: 0 <= j < |b| ==> b[j].name != a[at].name
  {
    forall i, j | 0 <= i < j < |b| ensures b[i].name != b[j].name {
      assert b[i] == a[if i < at then i else i + 1] && b[j] == a[if j < at then j else j + 1];
    }
    forall j | 0 <= j < |b| ensures b[j].name != a[at].name {
      assert b[j] == a[if j < at then j else j + 1];
    }
  }

  lemma WithoutOne(a: seq<Attr>, at: nat, m: map<string, string>, b: seq<Attr>)
    requires AttrsAre(a, m) && at < |a| && b == a[..at] + a[at + 1..]
    ensures AttrsAre(b, m - {a[at].name})
  {
    UniqueWithout(a, at, b);
    forall j | 0 <= j < |b| ensures b[j].name in m && m[b[j].name] == b[j].value {
      assert b[j] == a[if j < at then j else j + 1];
    }
    forall k | k in m && k != a[at].name ensures exists j :: 0 <= j < |b| && b[j].name == k {
      var j :| 0 <= j < |a| && a[j].name == k;
      assert b[if j < at then j else j - 1] == a[j];
    }
  }

  method RemoveAttribute(n: Node, name: string, ghost at: nat, ghost m: map<string, string>)
    requires AttrsAre(n.attrs, m) && at < |n.attrs| && n.attrs[at].name == name
    modifies n`attrs
    ensures AttrsAre(n.attrs, m - {name})
    ensures n.attrs == old(n.attrs[..at] + n.attrs[at + 1..])
  {
    var i := IndexOf(n.attrs, name);
    assert i == at;
    WithoutOne(n.attrs, at, m, n.attrs[..at] + n.attrs[at + 1..]);
    n.attrs := n.attrs[..i] + n.attrs[i + 1..];
  }

  lemma Listed(a: seq<Attr>, m: map<string, string>, name: string)
    requires AttrsAre(a, m)
    ensures name in m <==> IndexOf(a, name) >= 0
    ensures name in m ==> m[name] == a[IndexOf(a, name)].value
  {
  }

  method SetFrom(from: Node, attr: Attr, ghost m: map<string, string>) returns (ghost m': map<string, string>)
    requires AttrsAre(from.attrs, m)
    modifies from`attrs
    ensures m' == m[attr.name := attr.value] && AttrsAre(from.attrs, m')
  {
    m' := m[attr.name := attr.value];
    Listed(from.attrs, m, attr.name);
    var at := IndexOf(from.attrs, attr.name);
    if at < 0 || from.attrs[at].value != attr.value {
      SetAttribute(from, attr.name, attr.value, m);
    } else {
      assert m' == m;
    }
  }

  method SetAttributes(from: Node, to: Node, ghost mf: map<string, string>, ghost mt: map<string, string>)
    returns (ghost m: map<string, string>)
    requires from != to && AttrsAre(from.attrs, mf) && AttrsAre(to.attrs, mt)
    modifies from`attrs
    ensures AttrsAre(from.attrs, m)
    ensures forall k :: k in mt ==> k in m && m[k] == mt[k]
  {
    m := mf;
    var i := |to.attrs| - 1;
    while i >= 0
      invariant -1 <= i < |to.attrs| && AttrsAre(from.attrs, m)
      invariant forall j :: i < j < |to.attrs| ==> to.attrs[j].name in m && m[to.attrs[j].name] == to.attrs[j].value
    {
      m := SetFrom(from, to.attrs[i], m);
      i := i - 1;
    }
  }

  method RemoveUnlessIn(from: Node, to: Node, d: nat, ghost m: map<string, string>, ghost mt: map<string, string>)
    returns (ghost m': map<string, string>)
    requires from != to && AttrsAre(from.attrs, m) && AttrsAre(to.attrs, mt) && d < |from.attrs|
    requires forall j :: d < j < |from.attrs| ==> from.attrs[j].name in mt
    requires forall k :: k in mt ==> k in m && m[k] == mt[k]
    modifies from`attrs
    ensures AttrsAre(from.attrs, m')
    ensures d <= |from.attrs| && forall j :: d <= j < |from.attrs| ==> from.attrs[j].name in mt
    ensures forall k :: k in mt ==> k in m' && m'[k] == mt[k]
  {
    m' := m;
    var name := from.attrs[d].name;
    Listed(to.attrs, mt, name);
    if IndexOf(to.attrs, name) < 0 {
      RemoveAttribute(from, name, d, m);
      m' := m - {name};
    }
  }

  method RemoveAttributes(from: Node, to: Node, ghost m0: map<string, string>, ghost mt: map<string, string>)
    requires from != to && AttrsAre(from.attrs, m0) && AttrsAre(to.attrs, mt)
    requires forall k :: k in mt ==> k in m0 && m0[k] == mt[k]
    modifies from`attrs
    ensures AttrsAre(from.attrs, mt)
  {
    ghost var m := m0;
    var d := |from.attrs| - 1;
    while d >= 0
      invariant -1 <= d < |from.attrs| && AttrsAre(from.attrs, m)
      invariant forall k :: k in mt ==> k in m && m[k] == mt[k]
      invariant forall j :: d < j < |from.attrs| ==> from.attrs[j].name in mt
    {
      m := RemoveUnlessIn(from, to, d, m, mt);
      d := d - 1;
    }
    assert m == mt;
  }

  /** First every attribute of `to` is set, from the last; then every other one is removed, from the last. */
  method MorphAttrs(from: Node, to: Node, ghost mf: map<string, string>, ghost mt: map<string, string>)
    requires from != to && AttrsAre(from.attrs, mf) && AttrsAre(to.attrs, mt)
    modifies from`attrs
    ensures AttrsAre(from.attrs, mt)
  {
    ghost var m := SetAttributes(from, to, mf, mt);
    RemoveAttributes(from, to, m, mt);
  }

  /** isEqualNode, the hook that leaves equal elements alone. */
  method IsEqualNode(a: Node, b: Node, ghost ta: Tree, ghost tb: Tree) returns (equal: bool)
    requires ta.node == a && tb.node == b && Holds(ta) && Holds(tb)
    ensures equal <==> EqualTrees(ta, tb)
    decreases ta
  {
    assert allocated(Nodes(ta)) && allocated(Nodes(tb));
    if a.kind != b.kind || a.name != b.name || a.value != b.value || |a.children| != |b.children| {
      return false;
    }
    equal := SameAttributes(a, b, ta.attrs, tb.attrs);
    if !equal {
      return;
    }
    for i := 0 to |a.children|
      invariant Holds(ta) && Holds(tb)
      invariant forall j :: 0 <= j < i ==> EqualTrees(ta.kids[j], tb.kids[j])
    {
      assert Holds(ta.kids[i]) && Holds(tb.kids[i]);
      equal := IsEqualNode(a.children[i], b.children[i], ta.kids[i], tb.kids[i]);
      if !equal {
        return;
      }
    }
    equal := true;
  }

  method SameAttributes(a: Node, b: Node, ghost ma: map<string, string>, ghost mb: map<string, string>)
    returns (same: bool)
    requires AttrsAre(a.attrs, ma) && AttrsAre(b.attrs, mb)
    ensures same <==> ma == mb
  {
    if |a.attrs| != |b.attrs| {
      SizeIs(a.attrs, ma);
      SizeIs(b.attrs, mb);
      return false;
    }
    for i := 0 to |a.attrs|
      invariant forall j :: 0 <= j < i ==> a.attrs[j].name in mb && mb[a.attrs[j].name] == a.attrs[j].value
    {
      var attr := a.attrs[i];
      Listed(b.attrs, mb, attr.name);
      var k := IndexOf(b.attrs, attr.name);
      if k < 0 || b.attrs[k].value != attr.value {
        return false;
      }
    }
    AllListed(a.attrs, b.attrs, ma, mb);
    same := true;
  }

  lemma AllListed(a: seq<Attr>, b: seq<Attr>, ma: map<string, string>, mb: map<string, string>)
    requires AttrsAre(a, ma) && AttrsAre(b, mb) && |a| == |b|
    requires forall j :: 0 <= j < |a| ==> a[j].name in mb && mb[a[j].name] == a[j].value
    ensures ma == mb
  {
    SizeIs(a, ma);
    SizeIs(b, mb);
    assert forall n :: n in ma ==> n in mb && ma[n] == mb[n];
    SameKeys(ma.Keys, mb.Keys);
  }

  lemma SameKeys(x: set<string>, y: set<string>)
    requires x <= y && |x| == |y|
    ensures x == y
  {
    assert |y - x| == |y| - |x|;
  }

  lemma {:induction false} SizeIs(a: seq<Attr>, m: map<string, string>)
    requires AttrsAre(a, m)
    ensures |a| == |m|
    decreases |a|
  {
    if |a| > 0 {
      var last := |a| - 1;
      assert a[..last] == a[..last] + a[last + 1..];
      WithoutOne(a, last, m, a[..last]);
      SizeIs(a[..last], m - {a[last].name});
    } else {
      assert m == map[];
    }
  }

  /** Whether a node is morphed into the other or dropped: its type must match, and an element's name. */
  predicate Compatible(from: Node, to: Node) {
    CanBecome(from.kind, from.name, to.kind, to.name)
  }

  predicate CanBecome(kind: Kind, name: string, toKind: Kind, toName: string) {
    kind == toKind &&
    match kind
    case Element => CompareNodeNames(name, toName)
    case Text => true
    case Comment => true
    case Other(_) => false
  }

  // What editing comes to, whichever elements are left alone because they are equal.

  predicate CompatibleTrees(a: Tree, b: Tree) {
    CanBecome(a.kind, a.name, b.kind, b.name)
  }

  /** Index of the first child, from `at` on, that can be morphed into b. */
  function First(rest: seq<Tree>, at: nat, b: Tree): (n: nat)
    requires at <= |rest|
    ensures at <= n <= |rest| && (n < |rest| ==> CompatibleTrees(rest[n], b))
    ensures forall i :: at <= i < n ==> !CompatibleTrees(rest[i], b)
    decreases |rest| - at
  {
    if at == |rest| || CompatibleTrees(rest[at], b) then at else First(rest, at + 1, b)
  }

  lemma {:induction false} FirstIs(rest: seq<Tree>, at: nat, b: Tree, n: nat)
    requires at <= n <= |rest| && (n < |rest| ==> CompatibleTrees(rest[n], b))
    requires forall i :: at <= i < n ==> !CompatibleTrees(rest[i], b)
    ensures First(rest, at, b) == n
    decreases n - at
  {
    if at < n {
      FirstIs(rest, at + 1, b, n);
    }
  }

  ghost function Result(a: Tree, b: Tree): Tree
    decreases b
  {
    if a.kind == Element then a.(attrs := b.attrs, kids := ResultFrom(a.kids, 0, b.kids, 0)) else a.(value := b.value)
  }

  /** The children todo[k..] with what rest[at..] has to offer. */
  ghost function ResultFrom(rest: seq<Tree>, at: nat, todo: seq<Tree>, k: nat): (r: seq<Tree>)
    requires at <= |rest| && k <= |todo|
    ensures |r| == |todo| - k
    decreases todo, |todo| - k
  {
    if k == |todo| then []
    else
      var n := First(rest, at, todo[k]);
      if n == |rest| then [todo[k]] + ResultFrom(rest, n, todo, k + 1)
      else [Result(rest[n], todo[k])] + ResultFrom(rest, n + 1, todo, k + 1)
  }

  lemma {:induction false} NothingLeft(rest: seq<Tree>, todo: seq<Tree>, k: nat)
    requires k <= |todo|
    ensures forall i :: k <= i < |todo| ==> ResultFrom(rest, |rest|, todo, k)[i - k] == todo[i]
    decreases |todo| - k
  {
    if k < |todo| {
      NothingLeft(rest, todo, k + 1);
    }
  }

  /** Leaving an element alone because it is equal is what editing it comes to. */
  lemma {:induction false} ResultOfEqual(a: Tree, b: Tree)
    requires EqualTrees(a, b)
    ensures EqualTrees(a, Result(a, b))
    decreases b
  {
    if a.kind == Element {
      ResultFromEqualKids(a.kids, b.kids, 0);
    } else {
      EqualToItself(a);
    }
  }

  lemma {:induction false} ResultFromEqualKids(rest: seq<Tree>, todo: seq<Tree>, k: nat)
    requires EqualAll(rest, todo) && k <= |todo|
    ensures forall i :: k <= i < |todo| ==> EqualTrees(rest[i], ResultFrom(rest, k, todo, k)[i - k])
    decreases todo, |todo| - k
  {
    if k < |todo| {
      if CompatibleTrees(rest[k], todo[k]) {
        ResultOfEqual(rest[k], todo[k]);
        ResultFromEqualKids(rest, todo, k + 1);
      } else {
        FirstIs(rest, k, todo[k], |rest|);
        NothingLeft(rest, todo, k + 1);
      }
    }
  }

  // Which nodes stay.

  ghost predicate NoOther(t: Tree) {
    !t.kind.Other? && NoOtherAll(t.kids)
  }

  ghost predicate NoOtherAll(f: seq<Tree>) {
    forall i :: 0 <= i < |f| ==> NoOther(f[i])
  }

  /** A document that is equal to its target keeps every node. */
  lemma {:induction false} NothingReplaced(a: Tree, b: Tree)
    requires EqualTrees(a, b) && NoOther(a)
    ensures Result(a, b) == a
    decreases b
  {
    if a.kind == Element {
      NothingReplacedFrom(a.kids, b.kids, 0);
      assert ResultFrom(a.kids, 0, b.kids, 0) == a.kids;
    }
  }

  lemma {:induction false} NothingReplacedFrom(rest: seq<Tree>, todo: seq<Tree>, k: nat)
    requires EqualAll(rest, todo) && NoOtherAll(rest) && k <= |todo|
    ensures forall i :: k <= i < |todo| ==> ResultFrom(rest, k, todo, k)[i - k] == rest[i]
    decreases todo, |todo| - k
  {
    if k < |todo| {
      assert EqualTrees(rest[k], todo[k]) && NoOther(rest[k]);
      FirstIs(rest, k, todo[k], k);
      NothingReplaced(rest[k], todo[k]);
      NothingReplacedFrom(rest, todo, k + 1);
    }
  }

  /** The two trees have the same shape, with types and names that match. */
  ghost predicate SameShape(a: Tree, b: Tree) {
    && a.kind == b.kind && !a.kind.Other? && (a.kind.Element? ==> CompareNodeNames(a.name, b.name))
    && SameShapeAll(a.kids, b.kids)
  }

  ghost predicate SameShapeAll(f: seq<Tree>, g: seq<Tree>) {
    |f| == |g| && forall i :: 0 <= i < |f| ==> SameShape(f[i], g[i])
  }

  ghost predicate SameNodes(a: Tree, b: Tree) {
    a.node == b.node && SameNodesAll(a.kids, b.kids)
  }

  ghost predicate SameNodesAll(f: seq<Tree>, g: seq<Tree>) {
    |f| == |g| && forall i :: 0 <= i < |f| ==> SameNodes(f[i], g[i])
  }

  /** Where only texts, comments and attributes differ, every node stays in its place. */
  lemma {:induction false} NodesStay(a: Tree, b: Tree)
    requires SameShape(a, b)
    ensures SameNodes(Result(a, b), a)
    decreases b
  {
    if a.kind == Element {
      NodesStayFrom(a.kids, b.kids, 0);
    } else {
      SameNodesAsItself(a);
    }
  }

  lemma {:induction false} NodesStayFrom(rest: seq<Tree>, todo: seq<Tree>, k: nat)
    requires SameShapeAll(rest, todo) && k <= |todo|
    ensures forall i :: k <= i < |todo| ==> SameNodes(ResultFrom(rest, k, todo, k)[i - k], rest[i])
    decreases todo, |todo| - k
  {
    if k < |todo| {
      assert SameShape(rest[k], todo[k]);
      NodesStay(rest[k], todo[k]);
      NodesStayFrom(rest, todo, k + 1);
    }
  }

  lemma {:induction false} SameNodesAsItself(a: Tree)
    ensures SameNodes(a, a)
  {
    forall i | 0 <= i < |a.kids| ensures SameNodes(a.kids[i], a.kids[i]) {
      SameNodesAsItself(a.kids[i]);
    }
  }

  /** The nodes of other types than elements, texts and comments. */
  ghost function Others(t: Tree): set<Node> {
    (if t.kind.Other? then {t.node} else {}) + OthersAll(t.kids)
  }

  ghost function OthersAll(f: seq<Tree>): set<Node> {
    set i, n | 0 <= i < |f| && n in Others(f[i]) :: n
  }

  /** They are never edited: those in the result are the target's. */
  lemma {:induction false} OthersAreNew(a: Tree, b: Tree)
    requires !a.kind.Other? && Plain(a)
    ensures Others(Result(a, b)) <= Others(b)
    decreases b
  {
    if a.kind == Element {
      OthersAreNewFrom(a.kids, 0, b.kids, 0);
    }
  }

  lemma {:induction false} OthersAreNewFrom(rest: seq<Tree>, at: nat, todo: seq<Tree>, k: nat)
    requires at <= |rest| && k <= |todo| && PlainAll(rest)
    ensures OthersAll(ResultFrom(rest, at, todo, k)) <= OthersAll(todo)
    decreases todo, |todo| - k
  {
    if k < |todo| {
      var n := First(rest, at, todo[k]);
      if n < |rest| {
        OthersAreNew(rest[n], todo[k]);
      }
      OthersAreNewFrom(rest, if n < |rest| then n + 1 else n, todo, k + 1);
      assert forall m :: m in Others(todo[k]) ==> m in OthersAll(todo);
    }
  }

  lemma FirstEqual(rest: seq<Tree>, rest': seq<Tree>, at: nat, b: Tree, b': Tree)
    requires EqualAll(rest, rest') && EqualTrees(b, b') && at <= |rest|
    ensures First(rest, at, b) == First(rest', at, b')
  {
    FirstIs(rest', at, b', First(rest, at, b));
  }

  /** Equal documents are edited to equal documents, whichever nodes hold them. */
  lemma {:induction false} ResultEqual(a: Tree, a': Tree, b: Tree, b': Tree)
    requires EqualTrees(a, a') && EqualTrees(b, b')
    ensures EqualTrees(Result(a, b), Result(a', b'))
    decreases b
  {
    if a.kind == Element {
      ResultFromEqual(a.kids, a'.kids, 0, b.kids, b'.kids, 0);
    }
  }

  lemma {:induction false} ResultFromEqual(rest: seq<Tree>, rest': seq<Tree>, at: nat, todo: seq<Tree>,
                                           todo': seq<Tree>, k: nat)
    requires EqualAll(rest, rest') && EqualAll(todo, todo') && at <= |rest| && k <= |todo|
    ensures EqualAll(ResultFrom(rest, at, todo, k), ResultFrom(rest', at, todo', k))
    decreases todo, |todo| - k
  {
    if k < |todo| {
      var n := First(rest, at, todo[k]);
      FirstEqual(rest, rest', at, todo[k], todo'[k]);
      if n == |rest| {
        ResultFromEqual(rest, rest', n, todo, todo', k + 1);
      } else {
        ResultEqual(rest[n], rest'[n], todo[k], todo'[k]);
        ResultFromEqual(rest, rest', n + 1, todo, todo', k + 1);
      }
    }
  }

  lemma {:induction false} EqualTransitive(a: Tree, b: Tree, c: Tree)
    requires EqualTrees(a, b) && EqualTrees(b, c)
    ensures EqualTrees(a, c)
  {
    forall i | 0 <= i < |a.kids| ensures EqualTrees(a.kids[i], c.kids[i]) {
      EqualTransitive(a.kids[i], b.kids[i], c.kids[i]);
    }
  }

  lemma {:induction false} EqualSymmetric(a: Tree, b: Tree)
    requires EqualTrees(a, b)
    ensures EqualTrees(b, a)
  {
    forall i | 0 <= i < |a.kids| ensures EqualTrees(b.kids[i], a.kids[i]) {
      EqualSymmetric(a.kids[i], b.kids[i]);
    }
  }

  /** The root may also be replaced, or renamed. */
  ghost function RootResult(a: Tree, b: Tree): Tree {
    if a.kind != b.kind then b
    else if CompatibleTrees(a, b) then Result(a, b)
    else Result(a.(name := b.name, value := "", attrs := map[]), b)
  }

  /** Two trees that can be edited, one into the other. */
  ghost predicate Ready(a: Tree, b: Tree)
    reads Nodes(a), Nodes(b)
  {
    Holds(a) && Holds(b) && Separate(a) && Separate(b) && Plain(a) && Plain(b) && Nodes(a) !! Nodes(b)
  }

  /** Equal, and if `exact` the same nodes too. */
  ghost predicate Alike(r: Tree, goal: Tree, exact: bool) {
    EqualTrees(r, goal) && (exact ==> r == goal)
  }

  ghost predicate ExactAll(skipEqual: bool, f: seq<Tree>) {
    !skipEqual || NoOtherAll(f)
  }

  /** Whether it is known which nodes stay: the hook may keep nodes of other types, which are never edited. */
  ghost predicate Exact(skipEqual: bool, a: Tree) {
    !skipEqual || NoOther(a)
  }

  /** What editing a into b leaves at the node of a, built from nodes of both. */
  ghost predicate Edited(r: Tree, a: Tree, b: Tree, skipEqual: bool)
    reads Nodes(r)
  {
    && r.node == a.node && Holds(r) && Separate(r) && Nodes(r) <= Nodes(a) + Nodes(b)
    && Same(r, b) && Alike(r, Result(a, b), Exact(skipEqual, a))
  }

  method MorphNode(from: Node, to: Node, skipEqual: bool, ghost a: Tree, ghost b: Tree) returns (ghost r: Tree)
    requires a.node == from && b.node == to && Ready(a, b) && Compatible(from, to)
    modifies Nodes(a) + Nodes(b)
    ensures Edited(r, a, b, skipEqual)
    decreases b, 3
  {
    if from.kind == Element {
      r := MorphEl(from, to, skipEqual, a, b);
    } else {
      if from.value != to.value {
        from.value := to.value;
      }
      r := a.(value := b.value);
      EqualToItself(r);
    }
  }

  method MorphEl(from: Node, to: Node, skipEqual: bool, ghost a: Tree, ghost b: Tree) returns (ghost r: Tree)
    requires a.node == from && b.node == to && Ready(a, b)
    requires from.kind == to.kind == Element && CompareNodeNames(from.name, to.name)
    modifies Nodes(a) + Nodes(b)
    ensures Edited(r, a, b, skipEqual)
    decreases b, 2
  {
    assert allocated(Nodes(a)) && allocated(Nodes(b));
    if skipEqual {
      var equal := IsEqualNode(from, to, a, b);
      if equal {
        EqualIsEdited(a, b);
        return a;
      }
    }
    r := EditEl(from, to, skipEqual, a, b);
  }

  method EditEl(from: Node, to: Node, skipEqual: bool, ghost a: Tree, ghost b: Tree) returns (ghost r: Tree)
    requires a.node == from && b.node == to && Ready(a, b)
    requires from.kind == to.kind == Element && CompareNodeNames(from.name, to.name)
    modifies Nodes(a) + Nodes(b)
    ensures Edited(r, a, b, skipEqual)
    decreases b, 1
  {
    ghost var kids := EditInside(from, to, skipEqual, a, b);
    r := a.(attrs := b.attrs, kids := kids);
    KidsEdited(a, b, kids, Exact(skipEqual, a));
  }

  /** Attributes, then children. */
  method EditInside(from: Node, to: Node, skipEqual: bool, ghost a: Tree, ghost b: Tree)
    returns (ghost kids: seq<Tree>)
    requires a.node == from && b.node == to && Ready(a, b)
    modifies Nodes(a) + Nodes(b)
    ensures from.value == old(from.value) && AttrsAre(from.attrs, b.attrs)
    ensures from.children == Heads(kids) && HoldsAll(kids) && SeparateAll(kids)
    ensures NodesAll(kids) <= NodesAll(a.kids) + NodesAll(b.kids)
    ensures SameAll(kids, b.kids) && EqualAll(kids, ResultFrom(a.kids, 0, b.kids, 0))
    ensures ExactAll(skipEqual, a.kids) ==> kids == ResultFrom(a.kids, 0, b.kids, 0)
    decreases b, 0, 1
  {
    assert allocated(Nodes(a)) && allocated(Nodes(b));
    assert allocated(NodesAll(a.kids)) && allocated(NodesAll(b.kids));
    MorphAttrs(from, to, a.attrs, b.attrs);
    kids := MorphChildren(from, to, skipEqual, a, b);
  }

  lemma EqualIsEdited(a: Tree, b: Tree)
    requires EqualTrees(a, b)
    ensures Same(a, b) && Alike(a, Result(a, b), NoOther(a))
  {
    EqualIsSame(a, b);
    ResultOfEqual(a, b);
    if NoOther(a) {
      NothingReplaced(a, b);
    }
  }

  lemma KidsEdited(a: Tree, b: Tree, kids: seq<Tree>, exact: bool)
    requires a.kind == b.kind == Element && CompareNodeNames(a.name, b.name) && a.value == b.value
    requires SameAll(kids, b.kids) && EqualAll(kids, ResultFrom(a.kids, 0, b.kids, 0))
    requires exact ==> kids == ResultFrom(a.kids, 0, b.kids, 0)
    requires Separate(a) && Nodes(a) !! Nodes(b)
    requires SeparateAll(kids) && NodesAll(kids) <= NodesAll(a.kids) + NodesAll(b.kids)
    ensures var r := a.(attrs := b.attrs, kids := kids);
            && Same(r, b) && Alike(r, Result(a, b), exact)
            && Separate(r) && Nodes(r) <= Nodes(a) + Nodes(b)
  {
  }

  method MorphChildren(from: Node, to: Node, skipEqual: bool, ghost a: Tree, ghost b: Tree)
    returns (ghost kids: seq<Tree>)
    requires a.node == from && b.node == to && from.children == Heads(a.kids) && to.children == Heads(b.kids)
    requires HoldsAll(a.kids) && HoldsAll(b.kids)
    requires Separate(a) && Separate(b) && PlainAll(a.kids) && PlainAll(b.kids) && Nodes(a) !! Nodes(b)
    modifies from`children, to`children, NodesAll(a.kids) + NodesAll(b.kids)
    ensures from.children == Heads(kids) && HoldsAll(kids) && SeparateAll(kids)
    ensures NodesAll(kids) <= NodesAll(a.kids) + NodesAll(b.kids)
    ensures SameAll(kids, b.kids) && EqualAll(kids, ResultFrom(a.kids, 0, b.kids, 0))
    ensures ExactAll(skipEqual, a.kids) ==> kids == ResultFrom(a.kids, 0, b.kids, 0)
    decreases b, 0, 0
  {
    ghost var exact := ExactAll(skipEqual, a.kids);
    kids := [];
    ghost var goal, at: nat := ResultFrom(a.kids, 0, b.kids, 0), 0;
    ghost var rest, todo, all := a.kids, b.kids, NodesAll(a.kids) + NodesAll(b.kids);
    var i, k: nat := 0, 0;
    Beginning(rest, todo, exact);
    while k < |to.children|
      invariant Going(from, to, i, k, kids, rest, todo, all)
      invariant Rounds(a.kids, b.kids, at, kids, rest, todo, goal, exact)
      decreases |todo|
    {
      ghost var kids0, rest0, n := kids, rest, 0;
      assert |to.children[k..]| == |todo|;
      ghost var r;
      k, r, rest, n := MorphNext(from, to, i, k, skipEqual, kids, rest, todo, all);
      at := NextRound(a.kids, b.kids, at, kids, rest0, todo, goal, skipEqual, exact, n, r, rest);
      i, kids, todo := i + 1, kids + [r], todo[1..];
    }
    assert allocated(NodesAll(kids));
    CleanUp(from, i, kids, rest);
    Ending(a.kids, b.kids, at, kids, rest, todo, goal, exact);
  }

  /** The rounds so far: f[at..] remains, the targets from g[|kids|..] on are still to be matched. */
  ghost predicate Rounds(f: seq<Tree>, g: seq<Tree>, at: nat, kids: seq<Tree>, rest: seq<Tree>, todo: seq<Tree>,
                         goal: seq<Tree>, exact: bool)
  {
    && at <= |f| && rest == f[at..] && |kids| <= |g| && todo == g[|kids|..]
    && SameAll(kids, g[..|kids|]) && Towards(goal, kids, ResultFrom(f, at, g, |kids|), exact)
  }

  lemma Beginning(f: seq<Tree>, g: seq<Tree>, exact: bool)
    ensures Rounds(f, g, 0, [], f, g, ResultFrom(f, 0, g, 0), exact)
  {
  }

  lemma NextRound(f: seq<Tree>, g: seq<Tree>, at: nat, kids: seq<Tree>, rest: seq<Tree>, todo: seq<Tree>,
                  goal: seq<Tree>, skipEqual: bool, exact: bool, n: nat, r: Tree, rest': seq<Tree>)
    returns (at': nat)
    requires Rounds(f, g, at, kids, rest, todo, goal, exact) && |todo| > 0
    requires Same(r, todo[0]) && Matched(rest, todo[0], n, r, rest', skipEqual)
    requires exact ==> ExactAll(skipEqual, f)
    ensures Rounds(f, g, at', kids + [r], rest', todo[1..], goal, exact)
  {
    Advance(g, |kids|, todo);
    SameAppend(kids, g[..|kids|], r, todo[0]);
    var next;
    next, at' := MatchedNext(f, at, g, |kids|, rest, n, r, rest', skipEqual, exact);
    TowardsMore(goal, kids, ResultFrom(f, at, g, |kids|), next, ResultFrom(f, at', g, |kids| + 1), r, exact);
  }

  lemma Ending(f: seq<Tree>, g: seq<Tree>, at: nat, kids: seq<Tree>, rest: seq<Tree>, todo: seq<Tree>,
               goal: seq<Tree>, exact: bool)
    requires Rounds(f, g, at, kids, rest, todo, goal, exact) && todo == []
    ensures SameAll(kids, g) && EqualAll(kids, goal) && (exact ==> kids == goal)
  {
    assert g[..|kids|] == g;
    assert forall i :: 0 <= i < |kids| ==> Alike(kids[i], goal[i], exact);
  }

  /** One round: what it dropped, what it matched with the target's child, and what remains. */
  ghost predicate Matched(rest: seq<Tree>, b: Tree, n: nat, r: Tree, rest': seq<Tree>, skipEqual: bool) {
    && n <= |rest| && (forall i :: 0 <= i < n ==> !CompatibleTrees(rest[i], b))
    && if n == |rest| then r == b && rest' == []
       else
         && CompatibleTrees(rest[n], b) && Alike(r, Result(rest[n], b), Exact(skipEqual, rest[n]))
         && rest' == rest[n + 1..]
  }

  /** The finished children are the first ones of the goal, and the later ones are the others. */
  ghost predicate Towards(goal: seq<Tree>, kids: seq<Tree>, later: seq<Tree>, exact: bool) {
    && |goal| == |kids| + |later|
    && (forall i :: 0 <= i < |kids| ==> Alike(kids[i], goal[i], exact))
    && forall i :: |kids| <= i < |goal| ==> goal[i] == later[i - |kids|]
  }

  lemma TowardsMore(goal: seq<Tree>, kids: seq<Tree>, now: seq<Tree>, next: Tree, later: seq<Tree>, r: Tree,
                    exact: bool)
    requires Towards(goal, kids, now, exact) && now == [next] + later && Alike(r, next, exact)
    ensures Towards(goal, kids + [r], later, exact)
  {
    var k := |kids|;
    Behind(goal, k, now, next, later);
    forall i | 0 <= i < k + 1 ensures Alike((kids + [r])[i], goal[i], exact) {
      if i < k {
        assert Alike(kids[i], goal[i], exact);
      }
    }
  }

  /** What a round has matched is what editing comes to next. */
  lemma MatchedNext(f: seq<Tree>, at: nat, g: seq<Tree>, k: nat, rest: seq<Tree>, n: nat, r: Tree, rest': seq<Tree>,
                    skipEqual: bool, exact: bool)
    returns (next: Tree, at': nat)
    requires at <= |f| && rest == f[at..] && k < |g| && Matched(rest, g[k], n, r, rest', skipEqual)
    requires exact ==> ExactAll(skipEqual, f)
    ensures at' <= |f| && rest' == f[at'..] && Alike(r, next, exact)
    ensures ResultFrom(f, at, g, k) == [next] + ResultFrom(f, at', g, k + 1)
  {
    FirstOfRest(f, at, rest, g[k], n);
    ResultFromFirst(f, at, g, k);
    if n == |rest| {
      next, at' := g[k], |f|;
      EqualToItself(r);
    } else {
      next, at' := Result(f[at + n], g[k]), at + n + 1;
      AlikeIfExact(f, at + n, r, next, skipEqual, exact);
    }
  }

  lemma ResultFromFirst(f: seq<Tree>, at: nat, g: seq<Tree>, k: nat)
    requires at <= |f| && k < |g|
    ensures var m := First(f, at, g[k]);
            ResultFrom(f, at, g, k) == if m == |f| then [g[k]] + ResultFrom(f, m, g, k + 1)
                                       else [Result(f[m], g[k])] + ResultFrom(f, m + 1, g, k + 1)
  {
  }

  lemma FirstOfRest(f: seq<Tree>, at: nat, rest: seq<Tree>, b: Tree, n: nat)
    requires at <= |f| && rest == f[at..] && n <= |rest|
    requires (forall i :: 0 <= i < n ==> !CompatibleTrees(rest[i], b)) && (n < |rest| ==> CompatibleTrees(rest[n], b))
    ensures First(f, at, b) == at + n
    ensures n < |rest| ==> rest[n] == f[at + n] && rest[n + 1..] == f[at + n + 1..]
  {
    forall i | at <= i < at + n ensures !CompatibleTrees(f[i], b) {
      assert f[i] == rest[i - at];
    }
    FirstIs(f, at, b, at + n);
  }

  lemma AlikeIfExact(f: seq<Tree>, i: nat, r: Tree, goal: Tree, skipEqual: bool, exact: bool)
    requires i < |f| && Alike(r, goal, Exact(skipEqual, f[i])) && (exact ==> ExactAll(skipEqual, f))
    ensures Alike(r, goal, exact)
  {
  }

  lemma Behind<T>(goal: seq<T>, k: nat, now: seq<T>, next: T, later: seq<T>)
    requires k < |goal| && |now| == |goal| - k && now == [next] + later
    requires forall i :: k <= i < |goal| ==> goal[i] == now[i - k]
    ensures goal[k] == next && forall i :: k + 1 <= i < |goal| ==> goal[i] == later[i - (k + 1)]
  {
  }

  /** The finished children, the remaining ones and those still to be matched share no node. */
  ghost predicate Apart(from: Node, to: Node, kids: seq<Tree>, rest: seq<Tree>, todo: seq<Tree>, all: set<Node>) {
    && from != to && from !in all && to !in all
    && NodesAll(kids) <= all && NodesAll(rest) <= all && NodesAll(todo) <= all
    && NodesAll(kids) !! NodesAll(rest) && NodesAll(kids) !! NodesAll(todo) && NodesAll(rest) !! NodesAll(todo)
    && SeparateAll(kids) && SeparateAll(rest) && SeparateAll(todo)
  }

  /** The two sibling cursors: `i` is behind the finished children of `from`, `k` at the next child of `to`. */
  ghost predicate Going(from: Node, to: Node, i: nat, k: nat,
                        kids: seq<Tree>, rest: seq<Tree>, todo: seq<Tree>, all: set<Node>)
    reads from, to, all
  {
    && i == |kids| && from.children == Heads(kids) + Heads(rest)
    && k <= |to.children| && to.children[k..] == Heads(todo)
    && Apart(from, to, kids, rest, todo, all)
    && HoldsAll(kids) && HoldsAll(rest) && HoldsAll(todo)
    && PlainAll(rest) && PlainAll(todo)
  }

  /** One round of the outer loop: the next child of `to` is matched, or moves over. */
  method MorphNext(from: Node, to: Node, i: nat, k: nat, skipEqual: bool,
                   ghost kids: seq<Tree>, ghost rest: seq<Tree>, ghost todo: seq<Tree>, ghost all: set<Node>)
    returns (k': nat, ghost r: Tree, ghost rest': seq<Tree>, ghost n: nat)
    requires Going(from, to, i, k, kids, rest, todo, all) && |todo| > 0
    modifies from`children, to`children, all
    ensures Going(from, to, i + 1, k', kids + [r], rest', todo[1..], all)
    ensures Same(r, todo[0]) && Matched(rest, todo[0], n, r, rest', skipEqual)
    decreases todo[0], 5
  {
    assert allocated(NodesAll(kids)) && allocated(NodesAll(rest)) && allocated(NodesAll(todo)) && allocated(all);
    var found;
    assert Labelled(rest) && Labelled(todo) by {
      assert forall f, j :: HoldsAll(f) && 0 <= j < |f| ==> Holds(f[j]);
    }
    HeadsFrom(to.children, k, todo);
    found, n := DropIncompatible(from, i, to.children[k], kids, rest, todo[0]);
    rest' := rest[n..];
    SuffixApart(from, to, kids, rest, rest', todo, all);
    if found {
      r := MorphChild(from, to, i, k, skipEqual, kids, rest', todo, all);
      rest' := rest'[1..];
      k' := k + 1;
    } else {
      AppendChild(from, to, k, kids, todo, all);
      r := todo[0];
      k' := k;
      EqualToItself(r);
      EqualIsSame(r, r);
    }
  }

  /** Trees say of their nodes what these are. */
  ghost predicate Labelled(f: seq<Tree>) {
    forall i :: 0 <= i < |f| ==> f[i].node.kind == f[i].kind && f[i].node.name == f[i].name
  }

  method RemoveChild(n: Node, i: nat)
    requires i < |n.children|
    modifies n`children
    ensures n.children == old(n.children[..i] + n.children[i + 1..])
  {
    n.children := n.children[..i] + n.children[i + 1..];
  }

  /** Removes children from index i on until one can be morphed into toChild, or none is left. */
  method DropIncompatible(from: Node, i: nat, toChild: Node, ghost kids: seq<Tree>, ghost rest: seq<Tree>,
                          ghost b: Tree)
    returns (found: bool, ghost n: nat)
    requires from.children == Heads(kids) + Heads(rest) && i == |kids|
    requires Labelled(rest) && toChild.kind == b.kind && toChild.name == b.name
    modifies from`children
    ensures n <= |rest| && from.children == Heads(kids) + Heads(rest[n..])
    ensures forall j :: 0 <= j < n ==> !CompatibleTrees(rest[j], b)
    ensures found == (n < |rest|) && (found ==> CompatibleTrees(rest[n], b) && Compatible(rest[n].node, toChild))
  {
    ghost var rest' := rest;
    n := 0;
    while i < |from.children|
      invariant from.children == Heads(kids) + Heads(rest')
      invariant 0 <= n <= |rest| && rest' == rest[n..]
      invariant forall j :: 0 <= j < n ==> !CompatibleTrees(rest[j], b)
      decreases |rest| - n
    {
      HeadsWithout(from.children, kids, rest');
      Advance(rest, n, rest');
      if Compatible(from.children[i], toChild) {
        return true, n;
      }
      RemoveChild(from, i);
      rest', n := rest'[1..], n + 1;
    }
    found := false;
  }

  /** cleanupFromEl: what is left of the old children goes. */
  method CleanUp(from: Node, i: nat, ghost kids: seq<Tree>, ghost rest: seq<Tree>)
    requires from.children == Heads(kids) + Heads(rest) && i == |kids|
    modifies from`children
    ensures from.children == Heads(kids)
  {
    ghost var left := rest;
    while i < |from.children|
      invariant from.children == Heads(kids) + Heads(left)
      decreases |left|
    {
      HeadsWithout(from.children, kids, left);
      RemoveChild(from, i);
      left := left[1..];
    }
  }

  lemma NextApart(from: Node, to: Node, kids: seq<Tree>, rest: seq<Tree>, todo: seq<Tree>, all: set<Node>, r: Tree)
    requires Apart(from, to, kids, rest, todo, all) && |rest| > 0 && |todo| > 0
    requires Separate(r) && Nodes(r) <= Nodes(rest[0]) + Nodes(todo[0])
    ensures Apart(from, to, kids + [r], rest[1..], todo[1..], all)
  {
    Tail(rest);
    Tail(todo);
    NodesAppend(kids, r);
    SeparateAppend(kids, r);
  }

  lemma AppendApart(from: Node, to: Node, kids: seq<Tree>, todo: seq<Tree>, all: set<Node>)
    requires Apart(from, to, kids, [], todo, all) && |todo| > 0
    ensures Apart(from, to, kids + [todo[0]], [], todo[1..], all)
  {
    Tail(todo);
    NodesAppend(kids, todo[0]);
    SeparateAppend(kids, todo[0]);
  }

  lemma SuffixApart(from: Node, to: Node, kids: seq<Tree>, was: seq<Tree>, rest: seq<Tree>, todo: seq<Tree>,
                    all: set<Node>)
    requires |rest| <= |was| && rest == was[|was| - |rest|..]
    requires Apart(from, to, kids, was, todo, all)
    ensures Apart(from, to, kids, rest, todo, all)
    decreases |was|
  {
    if |rest| < |was| {
      Tail(was);
      SuffixApart(from, to, kids, was[1..], rest, todo, all);
    } else {
      assert rest == was;
    }
  }

  /** One compatible pair: the child is edited in place. */
  method MorphChild(from: Node, to: Node, i: nat, k: nat, skipEqual: bool,
                    ghost kids: seq<Tree>, ghost rest: seq<Tree>, ghost todo: seq<Tree>, ghost all: set<Node>)
    returns (ghost r: Tree)
    requires Going(from, to, i, k, kids, rest, todo, all) && |rest| > 0 && |todo| > 0
    requires Compatible(rest[0].node, todo[0].node)
    modifies all
    ensures Going(from, to, i + 1, k + 1, kids + [r], rest[1..], todo[1..], all)
    ensures Same(r, todo[0]) && Alike(r, Result(rest[0], todo[0]), Exact(skipEqual, rest[0]))
    decreases todo[0], 4
  {
    ghost var x, y, rest', todo' := rest[0], todo[0], rest[1..], todo[1..];
    Tail(rest);
    Tail(todo);
    HoldsTail(rest);
    HoldsTail(todo);
    assert allocated(NodesAll(kids)) && allocated(NodesAll(rest')) && allocated(NodesAll(todo'));
    assert from.children[i] == x.node && to.children[k] == y.node;
    r := MorphNode(from.children[i], to.children[k], skipEqual, x, y);
    assert HoldsAll(kids) && HoldsAll(rest') && HoldsAll(todo');
    GoingOn(from, to, i, k, kids, rest, todo, all, r);
  }

  lemma GoingOn(from: Node, to: Node, i: nat, k: nat,
                kids: seq<Tree>, rest: seq<Tree>, todo: seq<Tree>, all: set<Node>, r: Tree)
    requires |rest| > 0 && |todo| > 0 && i == |kids| && from.children == Heads(kids) + Heads(rest)
    requires k < |to.children| && to.children[k..] == Heads(todo)
    requires Apart(from, to, kids, rest, todo, all) && PlainAll(rest) && PlainAll(todo)
    requires HoldsAll(kids) && HoldsAll(rest[1..]) && HoldsAll(todo[1..])
    requires r.node == rest[0].node && Holds(r) && Separate(r) && Nodes(r) <= Nodes(rest[0]) + Nodes(todo[0])
    ensures Going(from, to, i + 1, k + 1, kids + [r], rest[1..], todo[1..], all)
  {
    NextApart(from, to, kids, rest, todo, all, r);
    HoldsAppend(kids, r);
    HeadsShift(kids, rest, r);
    HeadsFrom(to.children, k, todo);
    PlainTail(rest);
    PlainTail(todo);
  }

  /** No child is left to match: the target's child moves over. */
  method AppendChild(from: Node, to: Node, k: nat, ghost kids: seq<Tree>, ghost todo: seq<Tree>, ghost all: set<Node>)
    requires Going(from, to, |kids|, k, kids, [], todo, all) && |todo| > 0
    modifies from`children, to`children
    ensures Going(from, to, |kids| + 1, k, kids + [todo[0]], [], todo[1..], all)
  {
    Tail(todo);
    HoldsTail(todo);
    HoldsAppend(kids, todo[0]);
    NodesAppend(kids, todo[0]);
    HeadsMoved(from.children, to.children, k, kids, todo);
    MoveOver(from, to, k, kids + [todo[0]], todo[1..]);
    Appended(from, to, k, kids, todo, all);
  }

  method MoveOver(from: Node, to: Node, k: nat, ghost f: seq<Tree>, ghost g: seq<Tree>)
    requires from != to && k < |to.children| && HoldsAll(f) && HoldsAll(g)
    requires from !in NodesAll(f) + NodesAll(g) && to !in NodesAll(f) + NodesAll(g)
    modifies from`children, to`children
    ensures from.children == old(from.children + [to.children[k]])
    ensures to.children == old(to.children[..k] + to.children[k + 1..])
    ensures HoldsAll(f) && HoldsAll(g)
  {
    assert allocated(NodesAll(f)) && allocated(NodesAll(g));
    from.children := from.children + [to.children[k]];
    to.children := to.children[..k] + to.children[k + 1..];
  }

  lemma Appended(from: Node, to: Node, k: nat, kids: seq<Tree>, todo: seq<Tree>, all: set<Node>)
    requires |todo| > 0 && from.children == Heads(kids + [todo[0]]) + Heads([])
    requires k <= |to.children| && to.children[k..] == Heads(todo[1..])
    requires Apart(from, to, kids, [], todo, all) && PlainAll(todo)
    requires HoldsAll(kids + [todo[0]]) && HoldsAll(todo[1..])
    ensures Going(from, to, |kids| + 1, k, kids + [todo[0]], [], todo[1..], all)
  {
    AppendApart(from, to, kids, todo, all);
    PlainTail(todo);
  }

  lemma HeadsMoved(f: seq<Node>, g: seq<Node>, k: nat, kids: seq<Tree>, todo: seq<Tree>)
    requires f == Heads(kids) + Heads([]) && k <= |g| && g[k..] == Heads(todo) && |todo| > 0
    ensures k < |g| && f + [g[k]] == Heads(kids + [todo[0]]) + Heads([])
    ensures (g[..k] + g[k + 1..])[k..] == Heads(todo[1..])
  {
    HeadsFrom(g, k, todo);
    assert (g[..k] + g[k + 1..])[k..] == g[k + 1..];
    assert Heads([]) == [];
    assert Heads(kids + [todo[0]]) == Heads(kids) + [todo[0].node];
  }

  method MoveChildren(from: Node, to: Node)
    requires from != to && to.children == []
    modifies from`children, to`children
    ensures from.children == [] && to.children == old(from.children)
  {
    while |from.children| > 0
      invariant to.children + from.children == old(from.children)
      decreases |from.children|
    {
      var child := from.children[0];
      from.children := from.children[1..];
      to.children := to.children + [child];
    }
  }

  lemma RenamedReady(n: Node, a: Tree, b: Tree)
    requires Holds(b) && Separate(a) && Separate(b) && Plain(a) && Plain(b) && Nodes(a) !! Nodes(b)
    requires HoldsAll(a.kids) && n !in Nodes(a) && n !in Nodes(b)
    requires b.kind == Element && n.kind == Element && n.name == b.name
    requires n.value == "" && n.attrs == [] && n.children == Heads(a.kids)
    ensures Ready(Tree(n, Element, b.name, "", map[], a.kids), b)
  {
  }

  /** An element of another name: a new element takes over the children and is edited instead. */
  method Renamed(from: Node, to: Node, skipEqual: bool, ghost a: Tree, ghost b: Tree)
    returns (result: Node, ghost r: Tree)
    requires a.node == from && b.node == to && Ready(a, b)
    requires from.kind == to.kind == Element && !CompareNodeNames(from.name, to.name)
    modifies Nodes(a) + Nodes(b)
    ensures fresh(result) && result.name == to.name && result == r.node && Holds(r) && Separate(r) && Same(r, b)
    ensures EqualTrees(r, RootResult(a, b)) && Nodes(r) <= {result} + Nodes(a) + Nodes(b)
    ensures Exact(skipEqual, a) ==> r == RootResult(a, b).(node := result)
  {
    assert allocated(Nodes(a)) && allocated(Nodes(b)) && allocated(NodesAll(a.kids));
    result := new Node(Element, to.name);
    MoveChildren(from, result);
    ghost var a' := Tree(result, Element, b.name, "", map[], a.kids);
    RenamedReady(result, a, b);
    r := MorphEl(result, to, skipEqual, a', b);
  }

  /** What takes the place of `from`: `from` itself where the two kinds of node allow it. */
  method MorphRoot(from: Node, to: Node, skipEqual: bool, ghost a: Tree, ghost b: Tree)
    returns (result: Node, ghost r: Tree)
    requires a.node == from && b.node == to && Ready(a, b) && !from.kind.Other?
    modifies Nodes(a) + Nodes(b)
    ensures result == r.node && Holds(r) && Separate(r) && Same(r, b)
    ensures EqualTrees(r, RootResult(a, b)) && Nodes(r) <= {result} + Nodes(a) + Nodes(b)
    ensures Exact(skipEqual, a) ==> r == RootResult(a, b).(node := result)
    ensures if Compatible(from, to) then result == from else result == to || (fresh(result) && result.name == to.name)
  {
    if from.kind != to.kind {
      EqualToItself(b);
      EqualIsSame(b, b);
      result, r := to, b;
    } else if Compatible(from, to) {
      r := MorphNode(from, to, skipEqual, a, b);
      result := from;
    } else {
      result, r := Renamed(from, to, skipEqual, a, b);
    }
  }

  /** morphdom: what takes the place of `from` also takes its place below the parent. */
  method Morph(from: Node, to: Node, parent: Node, at: nat, skipEqual: bool, ghost a: Tree, ghost b: Tree)
    returns (result: Node, ghost r: Tree)
    requires a.node == from && b.node == to && Ready(a, b) && !from.kind.Other?
    requires parent !in Nodes(a) + Nodes(b) && at < |parent.children| && parent.children[at] == from
    modifies parent`children, Nodes(a) + Nodes(b)
    ensures result == r.node && Holds(r) && Separate(r) && Same(r, b)
    ensures EqualTrees(r, RootResult(a, b)) && Nodes(r) <= {result} + Nodes(a) + Nodes(b)
    ensures Exact(skipEqual, a) ==> r == RootResult(a, b).(node := result)
    ensures NamesAlike(r, b)
    ensures if Compatible(from, to) then result == from else result == to || (fresh(result) && result.name == to.name)
    ensures parent.children == old(parent.children)[at := result]
  {
    assert allocated(Nodes(a)) && allocated(Nodes(b));
    result, r := MorphRoot(from, to, skipEqual, a, b);
    if result != from {
      assert allocated(Nodes(r));
      parent.children := parent.children[..at] + [result] + parent.children[at + 1..];
    }
    SameNames(r, b);
  }

  lemma RootResultEqual(a: Tree, a': Tree, b: Tree, b': Tree)
    requires EqualTrees(a, a') && EqualTrees(b, b')
    ensures EqualTrees(RootResult(a, b), RootResult(a', b'))
  {
    if a.kind == b.kind {
      var c := if CompatibleTrees(a, b) then a else a.(name := b.name, value := "", attrs := map[]);
      var c' := if CompatibleTrees(a', b') then a' else a'.(name := b'.name, value := "", attrs := map[]);
      ResultEqual(c, c', b, b');
    }
  }

  /** Whatever two runs leave for equal documents and equal targets is equal. */
  lemma OneOutcome(a: Tree, a': Tree, b: Tree, b': Tree, r: Tree, r': Tree)
    requires EqualTrees(a, a') && EqualTrees(b, b')
    requires EqualTrees(r, RootResult(a, b)) && EqualTrees(r', RootResult(a', b'))
    ensures EqualTrees(r, r')
  {
    RootResultEqual(a, a', b, b');
    EqualTransitive(r, RootResult(a, b), RootResult(a', b'));
    EqualSymmetric(r', RootResult(a', b'));
    EqualTransitive(r, RootResult(a', b'), r');
  }

  /** Two copies of a document and of its target, morphed with the hook and without it, end up equal. */
  method WithAndWithoutHook(from: Node, to: Node, parent: Node, at: nat, ghost a: Tree, ghost b: Tree,
                            from': Node, to': Node, parent': Node, at': nat, ghost a': Tree, ghost b': Tree)
    returns (ghost r: Tree, ghost r': Tree)
    requires a.node == from && b.node == to && Ready(a, b) && !from.kind.Other?
    requires parent !in Nodes(a) + Nodes(b) && at < |parent.children| && parent.children[at] == from
    requires a'.node == from' && b'.node == to' && Ready(a', b')
    requires parent' !in Nodes(a') + Nodes(b') && at' < |parent'.children| && parent'.children[at'] == from'
    requires Nodes(a) + Nodes(b) + {parent} !! Nodes(a') + Nodes(b') + {parent'}
    requires EqualTrees(a, a') && EqualTrees(b, b')
    modifies parent`children, parent'`children, Nodes(a) + Nodes(b), Nodes(a') + Nodes(b')
    ensures EqualTrees(r, r') && Same(r, b) && Same(r', b')
  {
    assert allocated(Nodes(a)) && allocated(Nodes(b)) && allocated(Nodes(a')) && allocated(Nodes(b'));
    var result, result';
    result, r := Morph(from, to, parent, at, true, a, b);
    result', r' := Morph(from', to', parent', at', false, a', b');
    OneOutcome(a, a', b, b', r, r');
  }
}
