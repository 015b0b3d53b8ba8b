/** What the reader knows after any records, legal or not, by a look back over the records alone. */
module TraceHistory {
  import opened TraceFormat
  import opened TraceLaws

  predicate Gives(r: Record, x: nat) {
    !r.Free? && r.address == x
  }

  predicate Takes(r: Record, x: nat) {
    (r.Free? && r.address == x) || (r.Realloc? && r.old_ == x && r.address != x)
  }

  /** A block keeps its place. */
  predicate Resizes(r: Record, x: nat) {
    r.Realloc? && r.old_ == x && r.address == x
  }

  /** Of the first k records, the last one that speaks of x gives it. */
  ghost predicate Given(rs: seq<Record>, k: nat, x: nat)
    requires k <= |rs|
  {
    exists i :: 0 <= i < k && Gives(rs[i], x) && NotTaken(rs, i + 1, k, x)
  }

  ghost predicate NotTaken(rs: seq<Record>, from: nat, to: nat, x: nat)
    requires to <= |rs|
  {
    forall j :: from <= j < to ==> !Takes(rs[j], x)
  }

  ghost predicate NotResized(rs: seq<Record>, from: nat, to: nat, x: nat)
    requires to <= |rs|
  {
    forall j :: from <= j < to ==> !Resizes(rs[j], x)
  }

  /** Record i is the one that says the size of x: the earliest to give it since it was last taken or resized. */
  ghost predicate SizedBy(rs: seq<Record>, k: nat, x: nat, i: nat)
    requires k <= |rs|
  {
    && i < k && Gives(rs[i], x) && NotTaken(rs, i + 1, k, x) && NotResized(rs, i + 1, k, x)
    && (Resizes(rs[i], x) || !Given(rs, i, x))
  }

  lemma GivenNext(rs: seq<Record>, k: nat, x: nat)
    requires k < |rs|
    ensures Given(rs, k + 1, x) <==> Gives(rs[k], x) || (Given(rs, k, x) && !Takes(rs[k], x))
  {
    if Given(rs, k + 1, x) && !Gives(rs[k], x) {
      var i :| 0 <= i < k + 1 && Gives(rs[i], x) && NotTaken(rs, i + 1, k + 1, x);
      assert NotTaken(rs, i + 1, k, x);
    }
    if Gives(rs[k], x) {
      assert NotTaken(rs, k + 1, k + 1, x);
    } else if Given(rs, k, x) && !Takes(rs[k], x) {
      var i :| 0 <= i < k && Gives(rs[i], x) && NotTaken(rs, i + 1, k, x);
      assert NotTaken(rs, i + 1, k + 1, x);
    }
  }

  lemma SizedNext(rs: seq<Record>, k: nat, x: nat, i: nat)
    requires k < |rs|
    ensures SizedBy(rs, k + 1, x, i) <==>
            if i == k then Gives(rs[k], x) && (Resizes(rs[k], x) || !Given(rs, k, x))
            else SizedBy(rs, k, x, i) && !Takes(rs[k], x) && !Resizes(rs[k], x)
  {
    if i < k {
      assert NotTaken(rs, i + 1, k + 1, x) <==> NotTaken(rs, i + 1, k, x) && !Takes(rs[k], x);
      assert NotResized(rs, i + 1, k + 1, x) <==> NotResized(rs, i + 1, k, x) && !Resizes(rs[k], x);
    }
  }

  /** A given address has one size. */
  lemma {:induction false} SizedOnce(rs: seq<Record>, k: nat, x: nat)
    requires k <= |rs|
    ensures Given(rs, k, x) <==> exists i: nat :: SizedBy(rs, k, x, i)
    ensures forall i: nat, j: nat :: SizedBy(rs, k, x, i) && SizedBy(rs, k, x, j) ==> i == j
  {
    if k > 0 {
      SizedOnce(rs, k - 1, x);
      GivenNext(rs, k - 1, x);
      forall i: nat ensures SizedBy(rs, k, x, i) <==>
                       if i == k - 1 then Gives(rs[k - 1], x) && (Resizes(rs[k - 1], x) || !Given(rs, k - 1, x))
                       else SizedBy(rs, k - 1, x, i) && !Takes(rs[k - 1], x) && !Resizes(rs[k - 1], x)
      {
        SizedNext(rs, k - 1, x, i);
      }
      if Given(rs, k, x) {
        if Given(rs, k - 1, x) && !Resizes(rs[k - 1], x) {
          var i :| SizedBy(rs, k - 1, x, i);
          assert SizedBy(rs, k, x, i);
        } else {
          assert SizedBy(rs, k, x, k - 1);
        }
      }
    }
  }

  // What becomes of the reader's state.

  /** The state after the first k records. */
  ghost function At(rs: seq<Record>, k: nat): State
    requires k <= |rs|
  {
    ApplyAll(EMPTY, rs[..k])
  }

  lemma AtStart(rs: seq<Record>)
    ensures Explained(At(rs, 0), rs, 0)
  {
    assert rs[..0] == [];
    forall part ensures Number(rs, 0, part) == 0 {
      assert Parts(rs, 0, part) == {};
    }
  }

  lemma AtNext(rs: seq<Record>, k: nat)
    requires k < |rs|
    ensures At(rs, k + 1) == Apply(At(rs, k), rs[k])
  {
    assert rs[..k + 1] == rs[..k] + [rs[k]];
    ApplyAllSplit(EMPTY, rs[..k], [rs[k]]);
    assert [rs[k]][1..] == [];
  }

  lemma TickIs(s: State, time: nat)
    ensures Tick(s, time) == s.(time := Tick(s, time).time, output := Tick(s, time).output)
  {
  }

  /** The live addresses are those given, with the sizes of the records that say them. */
  ghost predicate Tracks(live: map<nat, nat>, rs: seq<Record>, k: nat)
    requires k <= |rs|
  {
    && (forall x :: x in live <==> Given(rs, k, x))
    && forall x: nat, i: nat :: SizedBy(rs, k, x, i) ==> x in live && live[x] == rs[i].size
  }

  lemma ChangeAt(s: State, r: Record, x: nat)
    ensures x in Change(s, r).live <==> Gives(r, x) || (x in s.live && !Takes(r, x))
    ensures x in Change(s, r).live ==>
              Change(s, r).live[x] == if Gives(r, x) && (Resizes(r, x) || x !in s.live) then r.size else s.live[x]
  {
  }

  lemma TracksNext(s: State, rs: seq<Record>, k: nat)
    requires k < |rs| && Tracks(s.live, rs, k)
    ensures Tracks(Change(s, rs[k]).live, rs, k + 1)
  {
    var r, live := rs[k], Change(s, rs[k]).live;
    forall x: nat ensures x in live <==> Given(rs, k + 1, x) {
      ChangeAt(s, r, x);
      GivenNext(rs, k, x);
    }
    forall x: nat, i: nat | SizedBy(rs, k + 1, x, i) ensures x in live && live[x] == rs[i].size {
      ChangeAt(s, r, x);
      SizedNext(rs, k, x, i);
      if i < k {
        assert SizedBy(rs, k, x, i) && x in s.live;
      }
    }
  }

  // What each counter counts, and what is printed.

  datatype Part = Allocation | Resize | UnknownResize | Release | UnknownRelease

  ghost function PartOf(rs: seq<Record>, i: nat): Part
    requires i < |rs|
  {
    match rs[i]
    case Malloc(_, _, _) => Allocation
    case Realloc(_, old_, _, _) => if Given(rs, i, old_) then Resize else UnknownResize
    case Free(_, address) => if Given(rs, i, address) then Release else UnknownRelease
  }

  ghost function Parts(rs: seq<Record>, k: nat, part: Part): set<nat>
    requires k <= |rs|
  {
    set i | 0 <= i < k && PartOf(rs, i) == part
  }

  ghost function Number(rs: seq<Record>, k: nat, part: Part): nat
    requires k <= |rs|
  {
    |Parts(rs, k, part)|
  }

  function Counter(s: State, part: Part): nat {
    match part
    case Allocation => s.mallocs
    case Resize => s.reallocs
    case UnknownResize => s.unknownReallocs
    case Release => s.frees
    case UnknownRelease => s.unknownFrees
  }

  ghost predicate Counts(s: State, rs: seq<Record>, k: nat)
    requires k <= |rs|
  {
    forall part :: Counter(s, part) == Number(rs, k, part)
  }

  lemma NumberNext(rs: seq<Record>, k: nat, part: Part)
    requires k < |rs|
    ensures Number(rs, k + 1, part) == Number(rs, k, part) + if PartOf(rs, k) == part then 1 else 0
  {
    var more := if PartOf(rs, k) == part then {k} else {};
    assert Parts(rs, k + 1, part) == Parts(rs, k, part) + more;
  }

  function PartIn(live: map<nat, nat>, r: Record): Part {
    match r
    case Malloc(_, _, _) => Allocation
    case Realloc(_, old_, _, _) => if old_ in live then Resize else UnknownResize
    case Free(_, address) => if address in live then Release else UnknownRelease
  }

  lemma ChangeCounts(s: State, r: Record, part: Part)
    ensures Counter(Change(s, r), part) == Counter(s, part) + if PartIn(s.live, r) == part then 1 else 0
  {
  }

  lemma CountsNext(s: State, rs: seq<Record>, k: nat)
    requires k < |rs| && Tracks(s.live, rs, k) && Counts(s, rs, k)
    ensures Counts(Change(s, rs[k]), rs, k + 1)
  {
    assert PartOf(rs, k) == PartIn(s.live, rs[k]);
    forall part ensures Counter(Change(s, rs[k]), part) == Number(rs, k + 1, part) {
      ChangeCounts(s, rs[k], part);
      NumberNext(rs, k, part);
    }
  }

  /** The latest time among the first k records. */
  function Clock(rs: seq<Record>, k: nat): (time: nat)
    requires k <= |rs|
    ensures forall i :: 0 <= i < k ==> rs[i].time <= time
    ensures time == 0 || exists i :: 0 <= i < k && rs[i].time == time
  {
    if k == 0 then 0
    else
      var before := Clock(rs, k - 1);
      if before < rs[k - 1].time then rs[k - 1].time else before
  }

  /** A report of what is live after the first k records, once a time is known. */
  ghost function Report(rs: seq<Record>, k: nat): seq<Event>
    requires k <= |rs|
  {
    if Clock(rs, k) == 0 then []
    else [Snapshot(Clock(rs, k), Wrap64(SumOf(At(rs, k).live)), Number(rs, k, UnknownRelease))]
  }

  /** What record k makes the reader print. */
  ghost function Said(rs: seq<Record>, k: nat): seq<Event>
    requires k < |rs|
  {
    SaidOfTime(rs, k) + SaidOfPlace(rs, k)
  }

  ghost function Printed(rs: seq<Record>, k: nat): seq<Event>
    requires k <= |rs|
  {
    if k == 0 then [] else Printed(rs, k - 1) + Said(rs, k - 1)
  }

  /** What is live and counted, and the time. */
  ghost predicate Known(s: State, rs: seq<Record>, k: nat)
    requires k <= |rs|
  {
    Tracks(s.live, rs, k) && Counts(s, rs, k) && s.time == Clock(rs, k)
  }

  /** All that a look back over the first k records tells about the reader. */
  ghost predicate Explained(s: State, rs: seq<Record>, k: nat)
    requires k <= |rs|
  {
    Known(s, rs, k) && s.output == Printed(rs, k)
  }

  ghost function SaidOfTime(rs: seq<Record>, k: nat): seq<Event>
    requires k < |rs|
  {
    var r, clock := rs[k], Clock(rs, k);
    if clock < r.time then Report(rs, k) else if r.time < clock then [TimeBack(r.time, clock)] else []
  }

  ghost function SaidOfPlace(rs: seq<Record>, k: nat): seq<Event>
    requires k < |rs|
  {
    var r := rs[k];
    if !r.Free? && Given(rs, k, r.address) && !Resizes(r, r.address) then [Repeated(r.address, r.size)] else []
  }

  lemma TickSays(s: State, rs: seq<Record>, k: nat)
    requires k < |rs| && s.live == At(rs, k).live && s.time == Clock(rs, k)
    requires s.unknownFrees == Number(rs, k, UnknownRelease)
    ensures Tick(s, rs[k].time).time == Clock(rs, k + 1)
    ensures Tick(s, rs[k].time).output == s.output + SaidOfTime(rs, k)
  {
  }

  lemma ChangeSays(t: State, rs: seq<Record>, k: nat)
    requires k < |rs| && Tracks(t.live, rs, k)
    ensures Change(t, rs[k]).output == t.output + SaidOfPlace(rs, k)
    ensures Change(t, rs[k]).time == t.time
  {
  }

  lemma SaidNext(s: State, rs: seq<Record>, k: nat)
    requires k < |rs| && Explained(s, rs, k) && s == At(rs, k)
    ensures Apply(s, rs[k]).time == Clock(rs, k + 1) && Apply(s, rs[k]).output == Printed(rs, k + 1)
  {
    assert Counter(s, UnknownRelease) == Number(rs, k, UnknownRelease);
    TickIs(s, rs[k].time);
    TickSays(s, rs, k);
    ChangeSays(Tick(s, rs[k].time), rs, k);
    Joined(s.output, SaidOfTime(rs, k), SaidOfPlace(rs, k));
  }

  lemma Joined<T>(a: seq<T>, b: seq<T>, c: seq<T>)
    ensures a + b + c == a + (b + c)
  {
  }

  lemma ExplainedNext(s: State, rs: seq<Record>, k: nat)
    requires k < |rs| && Explained(s, rs, k) && s == At(rs, k)
    ensures Explained(Apply(s, rs[k]), rs, k + 1)
  {
    var t := Tick(s, rs[k].time);
    TickIs(s, rs[k].time);
    TracksNext(t, rs, k);
    assert Counts(t, rs, k) by {
      forall part ensures Counter(t, part) == Number(rs, k, part) {
        assert Counter(s, part) == Number(rs, k, part);
      }
    }
    CountsNext(t, rs, k);
    SaidNext(s, rs, k);
  }

  /**
   * After any records, legal or not: what is live is what was given and not taken since, with the size of
   * the earliest record to give it; each counter counts the records of its part; and all that is printed is
   * what each record calls for.
   */
  lemma {:induction false} AtExplained(rs: seq<Record>, k: nat)
    requires k <= |rs|
    ensures Explained(At(rs, k), rs, k)
  {
    if k > 0 {
      AtExplained(rs, k - 1);
      AtNext(rs, k - 1);
      ExplainedNext(At(rs, k - 1), rs, k - 1);
    } else {
      AtStart(rs);
    }
  }

  // Whole files.

  lemma {:induction false} LeOfBytes(b: seq<byte>, at: nat, end: nat)
    requires at <= end <= |b|
    ensures ToLe(FromLe(b, at, end), end - at) == b[at..end]
    decreases end - at
  {
    if at < end {
      LeOfBytes(b, at + 1, end);
    }
  }

  lemma WordOfBytes(b: seq<byte>, at: nat)
    ensures at + 4 <= |b| ==> ToLe(Word32(b, at), 4) == b[at..at + 4]
    ensures at + 8 <= |b| ==> ToLe(Word64(b, at), 8) == b[at..at + 8]
  {
    if at + 4 <= |b| {
      LeOfBytes(b, at, at + 4);
    }
    if at + 8 <= |b| {
      LeOfBytes(b, at, at + 8);
    }
  }

  lemma Glued<T>(b: seq<T>, x: nat, y: nat, z: nat)
    requires x <= y <= z <= |b|
    ensures b[x..y] + b[y..z] == b[x..z]
  {
  }

  /** What was decoded is what the bytes encode. */
  lemma EncodeDecode(b: seq<byte>, at: nat)
    requires at < |b| && EntrySize(b[at]) != 0 && at + EntrySize(b[at]) <= |b|
    ensures Encode(Decode(b, at)) == b[at..at + EntrySize(b[at])]
  {
    assert [b[at]] == b[at..at + 1];
    WordOfBytes(b, at + 1);
    WordOfBytes(b, at + 5);
    Glued(b, at, at + 1, at + 5);
    Glued(b, at, at + 5, at + 13);
    if b[at] != 3 {
      WordOfBytes(b, at + 13);
      Glued(b, at, at + 13, at + 21);
    }
    if b[at] == 2 {
      WordOfBytes(b, at + 21);
      Glued(b, at, at + 21, at + 29);
    }
  }

  /** What is left of a file behind its last whole record: nothing, the start of a record, or anything else. */
  predicate Remains(tail: seq<byte>) {
    tail == [] || tail[0] !in {1, 2, 3} || |tail| < EntrySize(tail[0])
  }

  function StopAt(tail: seq<byte>): Stop
    requires Remains(tail)
  {
    if tail == [] then Left(0) else if tail[0] in {1, 2, 3} then Left(|tail|) else AtGarbage(tail[0])
  }

  /** b from `at` on is the encoding of rs and then the bytes from `end` on. */
  ghost predicate Encodes(b: seq<byte>, at: nat, rs: seq<Record>, end: nat)
    requires at <= |b|
  {
    at <= end <= |b| && b[at..end] == EncodeAll(rs)
  }

  lemma EncodesMore(b: seq<byte>, at: nat, next: nat, rs: seq<Record>, end: nat)
    requires at <= next <= |b| && |rs| > 0 && Encodes(b, next, rs[1..], end) && Encode(rs[0]) == b[at..next]
    ensures Encodes(b, at, rs, end)
  {
    Glued(b, at, next, end);
  }

  predicate NoRecord(b: seq<byte>, at: nat)
    requires at <= |b|
  {
    at == |b| || b[at] !in {1, 2, 3} || |b| - at < EntrySize(b[at])
  }

  lemma {:induction false} ParsedUpTo(b: seq<byte>, at: nat) returns (end: nat)
    requires at <= |b|
    ensures Encodes(b, at, Records(b, at, |b|).0, end) && NoRecord(b, end)
    decreases |b| - at
  {
    if NoRecord(b, at) {
      end := at;
    } else {
      var next := at + EntrySize(b[at]);
      var rs := Records(b, at, |b|).0;
      end := ParsedUpTo(b, next);
      EncodeDecode(b, at);
      assert rs[0] == Decode(b, at) && rs[1..] == Records(b, next, |b|).0;
      EncodesMore(b, at, next, rs, end);
    }
  }

  /** Every file is the encoding of some records and what remains. */
  lemma EveryFile(b: seq<byte>)
    ensures exists rs, tail :: Remains(tail) && b == EncodeAll(rs) + tail
  {
    var end := ParsedUpTo(b, 0);
    var rs, tail := Records(b, 0, |b|).0, b[end..];
    assert Remains(tail);
    Glued(b, 0, end, |b|);
    assert b[0..|b|] == b && b[end..|b|] == tail;
  }

  /** And such a file is parsed into these records, up to what remains. */
  lemma FileParsed(rs: seq<Record>, tail: seq<byte>)
    requires Remains(tail)
    ensures var b := EncodeAll(rs) + tail; Records(b, 0, |b|) == (rs, StopAt(tail))
  {
    var front := EncodeAll(rs);
    var b, n := front + tail, |front|;
    assert Records(front, 0, n) == (rs, Left(0)) by {
      assert [] + front == front;
      RecordsOfEncoded([], rs);
    }
    RecordsMoved(front, 0, n, b, 0, n);
    RecordsSplit(b, 0, n, |b|);
    TailParsed(b, n, tail);
    assert rs + [] == rs;
  }

  lemma TailParsed(b: seq<byte>, at: nat, tail: seq<byte>)
    requires at <= |b| && tail == b[at..] && Remains(tail)
    ensures Records(b, at, |b|) == ([], StopAt(tail))
  {
  }

  /** What the reader says of it in the end. */
  function Complaint(tail: seq<byte>): seq<Event>
    requires Remains(tail)
  {
    if tail == [] then [] else if tail[0] in {1, 2, 3} then [Corrupt(|tail|)] else [Garbage(Signed(tail[0]))]
  }

  /**
   * The whole run over any file: its records explain what is live and counted, and what is printed is what
   * they call for, a complaint about what remains, and a last report.
   */
  lemma RunExplained(rs: seq<Record>, tail: seq<byte>)
    requires Remains(tail)
    ensures var n, s := |rs|, WholeRun(EMPTY, EncodeAll(rs) + tail);
            Known(s, rs, n) && s.output == Printed(rs, n) + Complaint(tail) + Report(rs, n)
  {
    var b := EncodeAll(rs) + tail;
    FileParsed(rs, tail);
    AtExplained(rs, |rs|);
    assert At(rs, |rs|) == ApplyAll(EMPTY, rs) by {
      assert rs[..|rs|] == rs;
    }
    EndsExplained(At(rs, |rs|), rs, tail);
    KnownPrinted(At(rs, |rs|), rs, |rs|, Printed(rs, |rs|) + Complaint(tail) + Report(rs, |rs|));
  }

  lemma KnownPrinted(s: State, rs: seq<Record>, k: nat, output: seq<Event>)
    requires k <= |rs| && Known(s, rs, k)
    ensures Known(s.(output := output), rs, k)
  {
    forall part ensures Counter(s.(output := output), part) == Number(rs, k, part) {
      assert Counter(s, part) == Number(rs, k, part);
    }
  }

  lemma EndsExplained(s: State, rs: seq<Record>, tail: seq<byte>)
    requires Remains(tail) && Explained(s, rs, |rs|) && s == At(rs, |rs|)
    ensures PrintState(AtEnd(Stopped(s, StopAt(tail)), StopAt(tail)))
         == s.(output := s.output + Complaint(tail) + Report(rs, |rs|))
  {
    assert Counter(s, UnknownRelease) == Number(rs, |rs|, UnknownRelease);
    var t := AtEnd(Stopped(s, StopAt(tail)), StopAt(tail));
    assert t == s.(output := s.output + Complaint(tail));
  }
}
