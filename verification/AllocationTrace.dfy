/** The allocation trace: its byte format, its records and what they mean. */
module TraceFormat {
  type byte = x: int | 0 <= x < 256
  type u32 = x: int | 0 <= x < 0x1_0000_0000
  type u64 = x: int | 0 <= x < 0x1_0000_0000_0000_0000

  datatype Record =
    | Malloc(time: u32, size: u64, address: u64)
    | Realloc(time: u32, old_: u64, size: u64, address: u64)
    | Free(time: u32, address: u64)

  /** What the reader prints while it runs. */
  datatype Event =
    | Snapshot(time: nat, full: nat, unknownFrees: nat)
    | Repeated(address: nat, size: nat)
    | TimeBack(time: nat, current: nat)
    | Garbage(command: int)
    | Corrupt(left: nat)

  datatype State = State(
    time: nat,
    mallocs: nat,
    reallocs: nat,
    frees: nat,
    unknownReallocs: nat,
    unknownFrees: nat,
    live: map<nat, nat>,
    output: seq<Event>)

  const EMPTY := State(0, 0, 0, 0, 0, 0, map[], [])

  // Little-endian numbers.

  function Pow256(k: nat): nat { if k == 0 then 1 else 256 * Pow256(k - 1) }

  function ToLe(n: nat, k: nat): (b: seq<byte>)
    ensures |b| == k
  {
    if k == 0 then [] else [n % 256] + ToLe(n / 256, k - 1)
  }

  /** The number whose bytes stand in b from `at` up to `end`. */
  function FromLe(b: seq<byte>, at: nat, end: nat): (n: nat)
    requires at <= end <= |b|
    ensures n < Pow256(end - at)
    decreases end - at
  {
    if at == end then 0 else b[at] + 256 * FromLe(b, at + 1, end)
  }

  lemma {:induction false} LeRoundTrip(front: seq<byte>, n: nat, k: nat, rest: seq<byte>)
    requires n < Pow256(k)
    ensures FromLe(front + ToLe(n, k) + rest, |front|, |front| + k) == n
    decreases k
  {
    if k > 0 {
      var first := [n % 256];
      LeRoundTrip(front + first, n / 256, k - 1, rest);
      assert front + ToLe(n, k) + rest == front + first + ToLe(n / 256, k - 1) + rest;
    }
  }

  /** Bytes d places further on make the same number. */
  lemma {:induction false} LeMoved(a: seq<byte>, at: nat, end: nat, b: seq<byte>, d: int)
    requires at <= end <= |a| && 0 <= at + d && end + d <= |b|
    requires forall i :: at <= i < end ==> a[i] == b[i + d]
    ensures FromLe(a, at, end) == FromLe(b, at + d, end + d)
    decreases end - at
  {
    if at < end {
      LeMoved(a, at + 1, end, b, d);
    }
  }

  lemma WordSizes()
    ensures Pow256(4) == 0x1_0000_0000
    ensures Pow256(8) == 0x1_0000_0000_0000_0000
  {
    assert Pow256(2) == 0x1_0000;
    assert Pow256(3) == 0x100_0000;
    assert Pow256(4) == 0x1_0000_0000;
    assert Pow256(5) == 0x100_0000_0000;
    assert Pow256(6) == 0x1_0000_0000_0000;
    assert Pow256(7) == 0x100_0000_0000_0000;
  }

  function Word32(b: seq<byte>, at: nat): u32
    requires at + 4 <= |b|
  {
    WordSizes();
    FromLe(b, at, at + 4)
  }

  function Word64(b: seq<byte>, at: nat): u64
    requires at + 8 <= |b|
  {
    WordSizes();
    FromLe(b, at, at + 8)
  }

  // Records as bytes.

  /** The length of an entry that starts with this byte; 0 when no entry does. */
  function EntrySize(command: byte): nat {
    match command
    case 1 => 21
    case 2 => 29
    case 3 => 13
    case _ => 0
  }

  function Encode(r: Record): (b: seq<byte>)
    ensures |b| > 0 && |b| == EntrySize(b[0])
  {
    match r
    case Malloc(time, size, address) => [1] + ToLe(time, 4) + ToLe(size, 8) + ToLe(address, 8)
    case Realloc(time, old_, size, address) => [2] + ToLe(time, 4) + ToLe(old_, 8) + ToLe(size, 8) + ToLe(address, 8)
    case Free(time, address) => [3] + ToLe(time, 4) + ToLe(address, 8)
  }

  /** The record at an index of b. */
  function Decode(b: seq<byte>, at: nat): Record
    requires at < |b| && EntrySize(b[at]) != 0 && at + EntrySize(b[at]) <= |b|
  {
    match b[at]
    case 1 => Malloc(Word32(b, at + 1), Word64(b, at + 5), Word64(b, at + 13))
    case 2 => Realloc(Word32(b, at + 1), Word64(b, at + 5), Word64(b, at + 13), Word64(b, at + 21))
    case _ => Free(Word32(b, at + 1), Word64(b, at + 5))
  }

  lemma Field(b: seq<byte>, at: nat, n: nat, k: nat)
    requires n < Pow256(k) && at + k <= |b| && b[at..at + k] == ToLe(n, k)
    ensures FromLe(b, at, at + k) == n
  {
    assert b == b[..at] + ToLe(n, k) + b[at + k..];
    LeRoundTrip(b[..at], n, k, b[at + k..]);
  }

  lemma LongField(b: seq<byte>, at: nat, n: u64)
    requires at + 8 <= |b| && b[at..at + 8] == ToLe(n, 8)
    ensures Word64(b, at) == n
  {
    WordSizes();
    Field(b, at, n, 8);
  }

  /** The reader decodes what the tracer wrote. */
  lemma DecodeEncode(r: Record)
    ensures Decode(Encode(r), 0) == r
  {
    WordSizes();
    var b := Encode(r);
    assert b[1..5] == ToLe(r.time, 4);
    Field(b, 1, r.time, 4);
    match r {
      case Malloc(_, size, address) =>
        LongField(b, 5, size);
        LongField(b, 13, address);
      case Realloc(_, old_, size, address) =>
        LongField(b, 5, old_);
        LongField(b, 13, size);
        LongField(b, 21, address);
      case Free(_, address) =>
        LongField(b, 5, address);
    }
  }

  // What records do.

  /** The sum of all sizes; the choice of key does not matter, see SumWithout. */
  ghost function SumOf(m: map<nat, nat>): nat {
    if m == map[] then 0
    else
      var k :| k in m;
      m[k] + SumOf(m - {k})
  }

  lemma {:induction false} SumWithout(m: map<nat, nat>, k: nat)
    requires k in m
    ensures SumOf(m) == m[k] + SumOf(m - {k})
    decreases |m|
  {
    var c :| c in m && SumOf(m) == m[c] + SumOf(m - {c});
    if c != k {
      SumWithout(m - {c}, k);
      SumWithout(m - {k}, c);
      assert m - {c} - {k} == m - {k} - {c};
    }
  }

  lemma SumOfOne(k: nat, size: nat)
    ensures SumOf(map[k := size]) == size && SumOf(map[]) == 0
  {
    SumWithout(map[k := size], k);
    assert map[k := size] - {k} == map[];
  }

  /** The value a 64-bit unsigned variable keeps. */
  function Wrap64(n: nat): nat { n % 0x1_0000_0000_0000_0000 }

  lemma WrapSum(a: nat, b: nat)
    ensures Wrap64(Wrap64(a) + b) == Wrap64(a + b)
  {
    var m, q := 0x1_0000_0000_0000_0000, a / 0x1_0000_0000_0000_0000;
    var x := Wrap64(a) + b;
    assert a + b == x + m * q && x == m * (x / m) + x % m;
    assert a + b == m * (x / m + q) + x % m;
  }

  /** The printed total is an unsigned 64-bit sum. */
  ghost function PrintState(s: State): State {
    if s.time == 0 then s
    else s.(output := s.output + [Snapshot(s.time, Wrap64(SumOf(s.live)), s.unknownFrees)])
  }

  ghost function Tick(s: State, time: nat): State {
    if time > s.time then PrintState(s).(time := time)
    else if time < s.time then s.(output := s.output + [TimeBack(time, s.time)])
    else s
  }

  function Add(s: State, address: nat, size: nat): State {
    if address in s.live then s.(output := s.output + [Repeated(address, size)])
    else s.(live := s.live[address := size])
  }

  function Change(s: State, r: Record): State {
    match r
    case Malloc(_, size, address) =>
      var s' := Add(s, address, size);
      s'.(mallocs := s'.mallocs + 1)
    case Realloc(_, old_, size, address) =>
      if old_ !in s.live then Add(s.(unknownReallocs := s.unknownReallocs + 1), address, size)
      else if old_ != address then
        var s' := Add(s.(live := s.live - {old_}), address, size);
        s'.(reallocs := s'.reallocs + 1)
      else s.(live := s.live[address := size], reallocs := s.reallocs + 1)
    case Free(_, address) =>
      if address !in s.live then s.(unknownFrees := s.unknownFrees + 1)
      else s.(live := s.live - {address}, frees := s.frees + 1)
  }

  ghost function Apply(s: State, r: Record): State { Change(Tick(s, r.time), r) }

  ghost function ApplyAll(s: State, rs: seq<Record>): State
    decreases |rs|
  {
    if |rs| == 0 then s else ApplyAll(Apply(s, rs[0]), rs[1..])
  }

  lemma {:induction false} ApplyAllSplit(s: State, a: seq<Record>, b: seq<Record>)
    ensures ApplyAll(s, a + b) == ApplyAll(ApplyAll(s, a), b)
    decreases |a|
  {
    if |a| == 0 {
      assert a + b == b;
    } else {
      assert (a + b)[1..] == a[1..] + b;
      ApplyAllSplit(Apply(s, a[0]), a[1..], b);
    }
  }

  /** Where parsing stopped: before an incomplete entry of `left` bytes, or at a byte that starts no entry. */
  datatype Stop = Left(left: nat) | AtGarbage(command: byte)

  /** The byte as a signed char. */
  function Signed(command: byte): (c: int)
    ensures -128 <= c < 128 && (c - command) % 256 == 0
  {
    if command < 128 then command else command - 256
  }

  /** The whole records in b from index `at` up to `end`. */
  function Records(b: seq<byte>, at: nat, end: nat): (r: (seq<Record>, Stop))
    requires at <= end <= |b|
    ensures r.1.Left? ==> r.1.left <= end - at && r.1.left < 29
    decreases end - at
  {
    if at == end then ([], Left(0))
    else if EntrySize(b[at]) == 0 then ([], AtGarbage(b[at]))
    else if end - at < EntrySize(b[at]) then ([], Left(end - at))
    else
      var (rs, stop) := Records(b, at + EntrySize(b[at]), end);
      ([Decode(b, at)] + rs, stop)
  }

  /** The state after parsing b between two indices. */
  ghost function ParseAll(s: State, b: seq<byte>, at: nat, end: nat): State
    requires at <= end <= |b|
  {
    var (rs, stop) := Records(b, at, end);
    Stopped(ApplyAll(s, rs), stop)
  }

  function Stopped(s: State, stop: Stop): State {
    if stop.AtGarbage? then s.(output := s.output + [Garbage(Signed(stop.command))]) else s
  }

  lemma Regroup(a: seq<Record>, b: seq<Record>, c: seq<Record>)
    ensures a + (b + c) == a + b + c
    ensures [] + c == c
  {
  }

  /** Parsing in two portions, keeping the unparsed rest, is parsing at once; garbage ends it for good. */
  lemma {:induction false} RecordsSplit(b: seq<byte>, at: nat, mid: nat, end: nat)
    requires at <= mid <= end <= |b|
    ensures var (rs, stop) := Records(b, at, mid);
            && (stop.AtGarbage? ==> Records(b, at, end) == (rs, stop))
            && (stop.Left? ==>
                  var (more, last) := Records(b, mid - stop.left, end);
                  Records(b, at, end) == (rs + more, last))
    decreases mid - at
  {
    if at < mid && EntrySize(b[at]) != 0 {
      var n := EntrySize(b[at]);
      if n <= mid - at {
        RecordsSplit(b, at + n, mid, end);
        var (rs, stop) := Records(b, at + n, mid);
        assert Records(b, at, mid) == ([Decode(b, at)] + rs, stop);
        if stop.Left? {
          var from := mid - stop.left;
          var (more, last) := Records(b, from, end);
          assert Records(b, at, end) == ([Decode(b, at)] + (rs + more), last);
          Regroup([Decode(b, at)], rs, more);
        }
      } else {
        assert Records(b, at, mid) == ([], Left(mid - at));
        Regroup([], [], Records(b, at, end).0);
      }
    } else if at == mid {
      Regroup([], [], Records(b, at, end).0);
    }
  }

  /** Where the bytes stand does not matter. */
  lemma {:induction false} RecordsMoved(a: seq<byte>, at: nat, end: nat, b: seq<byte>, at': nat, end': nat)
    requires at <= end <= |a| && at' <= end' <= |b| && end - at == end' - at'
    requires forall i :: at <= i < end ==> a[i] == b[i + (at' - at)]
    ensures Records(a, at, end) == Records(b, at', end')
    decreases end - at
  {
    if at < end {
      assert b[at + (at' - at)] == b[at'];
      if EntrySize(a[at]) != 0 && EntrySize(a[at]) <= end - at {
        DecodeMoved(a, at, b, at' - at);
        RecordsMoved(a, at + EntrySize(a[at]), end, b, at' + EntrySize(a[at]), end');
      }
    }
  }

  lemma DecodeMoved(a: seq<byte>, at: nat, b: seq<byte>, d: int)
    requires at < |a| && EntrySize(a[at]) != 0 && at + EntrySize(a[at]) <= |a|
    requires 0 <= at + d && at + EntrySize(a[at]) + d <= |b|
    requires forall i :: at <= i < at + EntrySize(a[at]) ==> a[i] == b[i + d]
    ensures b[at + d] == a[at] && Decode(a, at) == Decode(b, at + d)
  {
    LeMoved(a, at + 1, at + 5, b, d);
    LeMoved(a, at + 5, at + 13, b, d);
    if a[at] != 3 {
      LeMoved(a, at + 13, at + 21, b, d);
    }
    if a[at] == 2 {
      LeMoved(a, at + 21, at + 29, b, d);
    }
  }

  /** The state at the end of the reader's run over a whole file. */
  ghost function WholeRun(s: State, file: seq<byte>): State {
    PrintState(AtEnd(ParseAll(s, file, 0, |file|), Records(file, 0, |file|).1))
  }

  function AtEnd(s: State, stop: Stop): State {
    if stop.Left? && stop.left != 0 then s.(output := s.output + [Corrupt(stop.left)]) else s
  }
}

/** What the reader's counters, snapshots and warnings say about the traced program. */
module TraceLaws {
  import opened TraceFormat

  function CountRepeated(output: seq<Event>): nat {
    if |output| == 0 then 0
    else CountRepeated(output[..|output| - 1]) + if output[|output| - 1].Repeated? then 1 else 0
  }

  function CountWarnings(output: seq<Event>): nat {
    if |output| == 0 then 0
    else CountWarnings(output[..|output| - 1]) + if output[|output| - 1].Snapshot? then 0 else 1
  }

  lemma OneMore(output: seq<Event>, e: Event)
    ensures CountRepeated(output + [e]) == CountRepeated(output) + if e.Repeated? then 1 else 0
    ensures CountWarnings(output + [e]) == CountWarnings(output) + if e.Snapshot? then 0 else 1
  {
    assert (output + [e])[..|output + [e]| - 1] == output;
  }

  /** Every entry ever made for an address is live, was refused as repeated, or was freed. */
  ghost predicate Conserved(s: State) {
    |s.live| + CountRepeated(s.output) + s.frees == s.mallocs + s.unknownReallocs
  }

  /** Snapshots come at strictly increasing times, all before the current one. */
  ghost predicate Ordered(output: seq<Event>, time: nat) {
    && (forall i :: 0 <= i < |output| && output[i].Snapshot? ==> 0 < output[i].time < time)
    && IncreasingSnapshots(output)
  }

  ghost predicate IncreasingSnapshots(output: seq<Event>) {
    forall i, j :: 0 <= i < j < |output| && output[i].Snapshot? && output[j].Snapshot?
      ==> output[i].time < output[j].time
  }

  lemma OrderedMore(output: seq<Event>, time: nat, later: nat, e: Event)
    requires Ordered(output, time) && time <= later
    requires e.Snapshot? ==> 0 < e.time && time <= e.time < later
    ensures Ordered(output + [e], later)
  {
  }

  ghost predicate Lawful(s: State) { Conserved(s) && Ordered(s.output, s.time) }

  lemma TickKeeps(s: State, time: nat)
    requires Lawful(s)
    ensures Lawful(Tick(s, time)) && Tick(s, time).live == s.live
  {
    if time > s.time && s.time != 0 {
      var e := Snapshot(s.time, Wrap64(SumOf(s.live)), s.unknownFrees);
      OneMore(s.output, e);
      OrderedMore(s.output, s.time, time, e);
    } else if time < s.time {
      OneMore(s.output, TimeBack(time, s.time));
      OrderedMore(s.output, s.time, s.time, TimeBack(time, s.time));
    }
  }

  lemma AddKeeps(s: State, address: nat, size: nat)
    requires Ordered(s.output, s.time)
    ensures var s' := Add(s, address, size);
            && Ordered(s'.output, s'.time)
            && |s'.live| + CountRepeated(s'.output) == |s.live| + CountRepeated(s.output) + 1
            && s' == s.(live := s'.live, output := s'.output)
  {
    OneMore(s.output, Repeated(address, size));
    OrderedMore(s.output, s.time, s.time, Repeated(address, size));
  }

  lemma ChangeKeeps(s: State, r: Record)
    requires Lawful(s)
    ensures Lawful(Change(s, r))
  {
    match r {
      case Malloc(_, size, address) =>
        AddKeeps(s, address, size);
      case Realloc(_, old_, size, address) =>
        if old_ !in s.live {
          AddKeeps(s.(unknownReallocs := s.unknownReallocs + 1), address, size);
        } else if old_ != address {
          assert |s.live - {old_}| == |s.live| - 1;
          AddKeeps(s.(live := s.live - {old_}), address, size);
        }
      case Free(_, address) =>
    }
  }

  lemma {:induction false} ApplyAllKeeps(s: State, rs: seq<Record>)
    requires Lawful(s)
    ensures Lawful(ApplyAll(s, rs))
    decreases |rs|
  {
    if |rs| > 0 {
      TickKeeps(s, rs[0].time);
      ChangeKeeps(Tick(s, rs[0].time), rs[0]);
      ApplyAllKeeps(Apply(s, rs[0]), rs[1..]);
    }
  }

  lemma OtherEvent(s: State, e: Event)
    requires Lawful(s) && !e.Snapshot? && !e.Repeated?
    ensures Lawful(s.(output := s.output + [e]))
  {
    OneMore(s.output, e);
    OrderedMore(s.output, s.time, s.time, e);
  }

  /** Over every trace file, whole, cut short or corrupt, and so after every prefix of one. */
  lemma ParseKeeps(s: State, b: seq<byte>, end: nat)
    requires Lawful(s) && end <= |b|
    ensures Lawful(ParseAll(s, b, 0, end))
  {
    var (rs, stop) := Records(b, 0, end);
    ApplyAllKeeps(s, rs);
    if stop.AtGarbage? {
      OtherEvent(ApplyAll(s, rs), Garbage(Signed(stop.command)));
    }
  }

  lemma PrintKeeps(s: State)
    requires Lawful(s)
    ensures Conserved(PrintState(s)) && IncreasingSnapshots(PrintState(s).output)
  {
    TickKeeps(s, s.time + 1);
  }

  /** The reader's whole run, with the snapshot printed after the file ends. */
  lemma RunLaws(file: seq<byte>)
    ensures var s := WholeRun(EMPTY, file);
            && |s.live| + CountRepeated(s.output) + s.frees == s.mallocs + s.unknownReallocs
            && IncreasingSnapshots(s.output)
  {
    ParseKeeps(EMPTY, file, |file|);
    var s, stop := ParseAll(EMPTY, file, 0, |file|), Records(file, 0, |file|).1;
    if stop.Left? && stop.left != 0 {
      OtherEvent(s, Corrupt(stop.left));
    }
    PrintKeeps(AtEnd(s, stop));
  }

  // Traces of a real heap.

  /** What a heap allows next: fresh addresses only, and only live blocks resized or freed. */
  predicate Legal(heap: map<nat, nat>, time: nat, r: Record) {
    && time <= r.time
    && match r
       case Malloc(_, _, address) => address !in heap
       case Realloc(_, old_, _, address) => old_ in heap && (address == old_ || address !in heap)
       case Free(_, address) => address in heap
  }

  function HeapAfter(heap: map<nat, nat>, r: Record): map<nat, nat> {
    match r
    case Malloc(_, size, address) => heap[address := size]
    case Realloc(_, old_, size, address) => (heap - {old_})[address := size]
    case Free(_, address) => heap - {address}
  }

  ghost predicate LegalAll(heap: map<nat, nat>, time: nat, rs: seq<Record>)
    decreases |rs|
  {
    |rs| == 0 || (Legal(heap, time, rs[0]) && LegalAll(HeapAfter(heap, rs[0]), rs[0].time, rs[1..]))
  }

  function HeapAfterAll(heap: map<nat, nat>, rs: seq<Record>): map<nat, nat>
    decreases |rs|
  {
    if |rs| == 0 then heap else HeapAfterAll(HeapAfter(heap, rs[0]), rs[1..])
  }

  /** The snapshots a legal history deserves: the live total each time the clock moves on. */
  ghost function Reports(heap: map<nat, nat>, time: nat, rs: seq<Record>): seq<Event>
    decreases |rs|
  {
    if |rs| == 0 then []
    else
      (if time != 0 && time < rs[0].time then [Snapshot(time, Wrap64(SumOf(heap)), 0)] else [])
      + Reports(HeapAfter(heap, rs[0]), rs[0].time, rs[1..])
  }

  function EncodeAll(rs: seq<Record>): seq<byte> {
    if |rs| == 0 then [] else Encode(rs[0]) + EncodeAll(rs[1..])
  }

  /** A file the tracer wrote is read back record for record. */
  lemma {:induction false} RecordsOfEncoded(front: seq<byte>, rs: seq<Record>)
    ensures var b := front + EncodeAll(rs); Records(b, |front|, |b|) == (rs, Left(0))
    decreases |rs|
  {
    if |rs| > 0 {
      RecordsOfEncoded(front + Encode(rs[0]), rs[1..]);
      EncodedBehind(front, rs[0], EncodeAll(rs[1..]), rs[1..]);
      assert [rs[0]] + rs[1..] == rs;
    }
  }

  lemma EncodedBehind(front: seq<byte>, r: Record, rest: seq<byte>, rs: seq<Record>)
    requires var b := front + Encode(r) + rest; Records(b, |front + Encode(r)|, |b|) == (rs, Left(0))
    ensures var b := front + (Encode(r) + rest); Records(b, |front|, |b|) == ([r] + rs, Left(0))
  {
    var first := Encode(r);
    assert front + (first + rest) == front + first + rest;
    FirstEncoded(front, r, rest);
    OneMoreRecord(front + first + rest, |front|, |first|, rs);
  }

  lemma FirstEncoded(front: seq<byte>, r: Record, rest: seq<byte>)
    ensures var b := front + Encode(r) + rest;
            EntrySize(b[|front|]) == |Encode(r)| && Decode(b, |front|) == r
  {
    DecodeEncode(r);
    DecodeMoved(Encode(r), 0, front + Encode(r) + rest, |front|);
  }

  lemma OneMoreRecord(b: seq<byte>, at: nat, n: nat, rs: seq<Record>)
    requires 0 < n && at + n <= |b| && EntrySize(b[at]) == n && Records(b, at + n, |b|) == (rs, Left(0))
    ensures Records(b, at, |b|) == ([Decode(b, at)] + rs, Left(0))
  {
  }

  /** The number of complaints of every kind so far. */
  function Complaints(s: State): nat { CountWarnings(s.output) + s.unknownReallocs + s.unknownFrees }

  ghost function NewReport(s: State, time: nat): seq<Event> {
    if s.time != 0 && s.time < time
    then [Snapshot(s.time, Wrap64(SumOf(s.live)), s.unknownFrees)]
    else []
  }

  lemma TickComplains(s: State, time: nat)
    ensures var t := Tick(s, time);
            && t == s.(time := t.time, output := t.output)
            && Complaints(t) == Complaints(s) + (if time < s.time then 1 else 0)
            && (s.time <= time ==> t.time == time && t.output == s.output + NewReport(s, time))
  {
    if time > s.time && s.time != 0 {
      OneMore(s.output, NewReport(s, time)[0]);
    } else if time < s.time {
      OneMore(s.output, TimeBack(time, s.time));
    }
  }

  lemma ChangeComplains(t: State, r: Record)
    ensures Complaints(t) <= Complaints(Change(t, r))
    ensures Complaints(t) == Complaints(Change(t, r)) <==> Legal(t.live, r.time, r)
    ensures Legal(t.live, r.time, r) ==>
              Change(t, r).live == HeapAfter(t.live, r) && Change(t, r).output == t.output
    ensures Change(t, r).time == t.time
    ensures Legal(t.live, r.time, r) ==> Change(t, r).unknownFrees == t.unknownFrees
  {
    if !r.Free? {
      OneMore(t.output, Repeated(r.address, r.size));
    }
  }

  lemma ApplyComplains(s: State, r: Record)
    ensures Complaints(s) <= Complaints(Apply(s, r))
    ensures Complaints(s) == Complaints(Apply(s, r)) <==> Legal(s.live, s.time, r)
    ensures Legal(s.live, s.time, r) ==>
              var s' := Apply(s, r);
              && s'.live == HeapAfter(s.live, r) && s'.time == r.time && s'.unknownFrees == s.unknownFrees
              && s'.output == s.output + NewReport(s, r.time)
  {
    TickComplains(s, r.time);
    ChangeComplains(Tick(s, r.time), r);
  }

  lemma {:induction false} LegalIsSilent(s: State, rs: seq<Record>)
    ensures Complaints(s) <= Complaints(ApplyAll(s, rs))
    ensures Complaints(s) == Complaints(ApplyAll(s, rs)) <==> LegalAll(s.live, s.time, rs)
    decreases |rs|
  {
    if |rs| > 0 {
      ApplyComplains(s, rs[0]);
      LegalIsSilent(Apply(s, rs[0]), rs[1..]);
    }
  }

  lemma {:induction false} LegalIsTracked(s: State, rs: seq<Record>)
    requires LegalAll(s.live, s.time, rs)
    ensures ApplyAll(s, rs).live == HeapAfterAll(s.live, rs)
    ensures s.unknownFrees == 0 ==> ApplyAll(s, rs).output == s.output + Reports(s.live, s.time, rs)
    decreases |rs|
  {
    if |rs| > 0 {
      ApplyComplains(s, rs[0]);
      LegalIsTracked(Apply(s, rs[0]), rs[1..]);
    }
  }

  lemma ApplyAllComplains(s: State, rs: seq<Record>)
    ensures Complaints(s) <= Complaints(ApplyAll(s, rs))
    ensures Complaints(s) == Complaints(ApplyAll(s, rs)) <==> LegalAll(s.live, s.time, rs)
    ensures LegalAll(s.live, s.time, rs) ==> ApplyAll(s, rs).live == HeapAfterAll(s.live, rs)
    ensures LegalAll(s.live, s.time, rs) && s.unknownFrees == 0
            ==> ApplyAll(s, rs).output == s.output + Reports(s.live, s.time, rs)
  {
    LegalIsSilent(s, rs);
    if LegalAll(s.live, s.time, rs) {
      LegalIsTracked(s, rs);
    }
  }

  /**
   * A reader with nothing to complain about yet is silent about a traced history exactly when a heap allows it;
   * then it tracks that heap.
   */
  lemma TracedHeap(s: State, rs: seq<Record>)
    requires s.output == [] && s.unknownReallocs == 0 && s.unknownFrees == 0
    ensures Records(EncodeAll(rs), 0, |EncodeAll(rs)|).1 == Left(0)
    ensures var s' := ParseAll(s, EncodeAll(rs), 0, |EncodeAll(rs)|);
            && (Complaints(s') == 0 <==> LegalAll(s.live, s.time, rs))
            && (LegalAll(s.live, s.time, rs) ==>
                  s'.live == HeapAfterAll(s.live, rs) && s'.output == Reports(s.live, s.time, rs))
  {
    assert [] + EncodeAll(rs) == EncodeAll(rs);
    RecordsOfEncoded([], rs);
    ApplyAllComplains(s, rs);
    assert Complaints(s) == 0;
    var reports := Reports(s.live, s.time, rs);
    assert s.output + reports == reports;
  }
}

/** The reader itself: global counters, a global map and one sliding buffer. */
module TraceReader {
  import opened TraceFormat

  const BUFFER_SIZE: nat := 1024 * 1024

  class Reader {
    var time: nat
    var mallocs: nat
    var reallocs: nat
    var frees: nat
    var unknownReallocs: nat
    var unknownFrees: nat
    var live: map<nat, nat>
    var output: seq<Event>
    const buffer: array<byte>

    ghost function Abs(): State
      reads this
    {
      State(time, mallocs, reallocs, frees, unknownReallocs, unknownFrees, live, output)
    }

    constructor ()
      ensures Abs() == EMPTY && fresh(buffer) && buffer.Length == BUFFER_SIZE
    {
      time, mallocs, reallocs, frees, unknownReallocs, unknownFrees := 0, 0, 0, 0, 0, 0;
      live, output := map[], [];
      buffer := new byte[BUFFER_SIZE];
    }

    /** Adds one size to the 64-bit total; `sum` is what the total would be without wrap-around. */
    static method AddSize(full: nat, rest: map<nat, nat>, address: nat, ghost sum: nat)
      returns (full': nat, rest': map<nat, nat>, ghost sum': nat)
      requires full == Wrap64(sum) && address in rest
      ensures full' == Wrap64(sum') && sum' + SumOf(rest') == sum + SumOf(rest)
      ensures rest' == rest - {address}
    {
      SumWithout(rest, address);
      WrapSum(sum, rest[address]);
      full' := Wrap64(full + rest[address]);
      sum' := sum + rest[address];
      rest' := rest - {address};
    }

    method TotalSize() returns (full: nat)
      ensures full == Wrap64(SumOf(live))
    {
      var rest := live;
      ghost var sum: nat := 0;
      full := 0;
      while rest.Keys != {}
        invariant full == Wrap64(sum) && sum + SumOf(rest) == SumOf(live)
        decreases rest.Keys
      {
        var address :| address in rest;
        full, rest, sum := AddSize(full, rest, address, sum);
      }
      assert rest == map[] && SumOf(rest) == 0;
    }

    method PrintState()
      modifies this
      ensures Abs() == TraceFormat.PrintState(old(Abs()))
    {
      if time == 0 {
        return;
      }
      var full := TotalSize();
      output := output + [Snapshot(time, full, unknownFrees)];
    }

    method Add(address: nat, size: nat)
      modifies this
      ensures Abs() == TraceFormat.Add(old(Abs()), address, size)
    {
      if address in live {
        output := output + [Repeated(address, size)];
        return;
      }
      live := live[address := size];
    }

    method ParseMalloc(at: nat, ghost r: Record)
      requires at + 16 <= buffer.Length
      requires r.Malloc? && r.size == Word64(buffer[..], at) && r.address == Word64(buffer[..], at + 8)
      modifies this
      ensures Abs() == Change(old(Abs()), r)
    {
      var size := Word64(buffer[..], at);
      var address := Word64(buffer[..], at + 8);
      Add(address, size);
      mallocs := mallocs + 1;
    }

    method ParseRealloc(at: nat, ghost r: Record)
      requires at + 24 <= buffer.Length
      requires r.Realloc? && r.old_ == Word64(buffer[..], at)
      requires r.size == Word64(buffer[..], at + 8) && r.address == Word64(buffer[..], at + 16)
      modifies this
      ensures Abs() == Change(old(Abs()), r)
    {
      var old_ := Word64(buffer[..], at);
      var size := Word64(buffer[..], at + 8);
      var address := Word64(buffer[..], at + 16);
      if old_ !in live {
        unknownReallocs := unknownReallocs + 1;
        Add(address, size);
      } else if old_ != address {
        live := live - {old_};
        Add(address, size);
        reallocs := reallocs + 1;
      } else {
        live := live[old_ := size];
        reallocs := reallocs + 1;
      }
    }

    method ParseFree(at: nat, ghost r: Record)
      requires at + 8 <= buffer.Length
      requires r.Free? && r.address == Word64(buffer[..], at)
      modifies this
      ensures Abs() == Change(old(Abs()), r)
    {
      var address := Word64(buffer[..], at);
      if address !in live {
        unknownFrees := unknownFrees + 1;
      } else {
        live := live - {address};
        frees := frees + 1;
      }
    }

    /** One entry: the clock, then the record. */
    method ParseEntry(at: nat, command: byte, ghost r: Record)
      requires at < buffer.Length && command == buffer[at] && EntrySize(command) != 0
      requires at + EntrySize(command) <= buffer.Length && r == Decode(buffer[..], at)
      modifies this
      ensures Abs() == Apply(old(Abs()), r)
    {
      var now := Word32(buffer[..], at + 1);
      if now > time {
        PrintState();
        time := now;
      } else if now < time {
        output := output + [TimeBack(now, time)];
      }
      assert Abs() == Tick(old(Abs()), r.time);
      match command {
        case 1 => ParseMalloc(at + 5, r);
        case 2 => ParseRealloc(at + 5, r);
        case _ => ParseFree(at + 5, r);
      }
    }

    /** Parses whole entries from the start of the buffer; -1 at a byte that starts none. */
    method Parse(end: nat) returns (result: int)
      requires end <= buffer.Length
      modifies this
      ensures Abs() == ParseAll(old(Abs()), buffer[..], 0, end)
      ensures result <= end
      ensures var stop := Records(buffer[..], 0, end).1;
              if result < 0 then stop.AtGarbage? else stop == Left(end - result)
    {
      result := 0;
      var at := 0;
      ghost var all, rs := buffer[..], [];
      assert rs + Records(all, 0, end).0 == Records(all, 0, end).0;
      while at < end
        invariant 0 <= at == result <= end
        invariant Records(all, 0, end) == (rs + Records(all, at, end).0, Records(all, at, end).1)
        invariant Abs() == ApplyAll(old(Abs()), rs)
      {
        var command := buffer[at];
        var entry := 0;
        match command {
          case 1 => entry := 5 + 2 * 8;
          case 2 => entry := 5 + 3 * 8;
          case 3 => entry := 5 + 8;
          case _ =>
            LastRecord(all, at, end, rs);
            output := output + [Garbage(Signed(command))];
            return -1;
        }
        if end - at < entry {
          LastRecord(all, at, end, rs);
          return;
        }
        NextRecord(all, at, end, rs, old(Abs()));
        ghost var r := Decode(all, at);
        ParseEntry(at, command, r);
        rs := rs + [r];
        at := at + entry;
        result := result + entry;
      }
      LastRecord(all, at, end, rs);
    }

    /** The first `data` bytes of the buffer are the bytes of the file before `position`. */
    ghost predicate Holds(file: seq<byte>, position: nat, data: nat)
      reads buffer
    {
      && data <= position <= |file| && data <= buffer.Length
      && forall i :: 0 <= i < data ==> buffer[i] == file[i + (position - data)]
    }

    /** fread: any number of bytes that are left and fit, none only at the end of the file or of the buffer. */
    method Read(file: seq<byte>, position: nat, data: nat) returns (read: nat)
      requires Holds(file, position, data)
      modifies buffer
      ensures Holds(file, position + read, data + read)
      ensures read == 0 ==> data == buffer.Length || position == |file|
    {
      read :|
        && read <= buffer.Length - data
        && read <= |file| - position
        && (read == 0 ==> data == buffer.Length || position == |file|);
      forall i | 0 <= i < read {
        buffer[data + i] := file[position + i];
      }
    }

    method MoveToFront(parsed: nat, data: nat, ghost file: seq<byte>, ghost position: nat)
      requires Holds(file, position, parsed + data)
      modifies buffer
      ensures Holds(file, position, data)
    {
      forall i | 0 <= i < data {
        buffer[i] := buffer[parsed + i];
      }
    }

    /** Parses what was read behind the rest: the run so far is one parse of the file up to `position`. */
    method ParsePortion(ghost file: seq<byte>, ghost mid: nat, ghost position: nat, data: nat,
                        ghost s0: State, ghost rs: seq<Record>)
      returns (parsed: int, ghost rs': seq<Record>)
      requires mid <= position && Holds(file, position, data) && position - data <= mid
      requires Records(file, 0, mid) == (rs, Left(mid - (position - data))) && Abs() == ApplyAll(s0, rs)
      modifies this
      ensures parsed <= data
      ensures parsed < 0 ==> Abs() == ParseAll(s0, file, 0, |file|) && Records(file, 0, |file|).1.AtGarbage?
      ensures parsed >= 0 ==>
                && Records(file, 0, position) == (rs', Left(data - parsed))
                && Abs() == ApplyAll(s0, rs') && data - parsed < 29
    {
      ghost var from, s := position - data, Abs();
      NextPortion(file, mid, position, s0, rs, from);
      RecordsMoved(buffer[..], 0, data, file, from, position);
      rs' := rs + Records(file, from, position).0;
      parsed := Parse(data);
      assert Abs() == ParseAll(s, file, from, position);
    }

    /** The loop over reads: until a read gives nothing or an entry is garbage; `data` bytes stay unparsed. */
    method ReadFile(file: seq<byte>) returns (data: int)
      requires buffer.Length == BUFFER_SIZE
      modifies this, buffer
      ensures Abs() == ParseAll(old(Abs()), file, 0, |file|)
      ensures var stop := Records(file, 0, |file|).1; if data < 0 then stop.AtGarbage? else stop == Left(data)
    {
      ghost var rs: seq<Record> := [];
      var position := 0;
      data := 0;
      while true
        invariant 0 <= data < 29 && position <= |file| && Holds(file, position, data)
        invariant Records(file, 0, position) == (rs, Left(data)) && Abs() == ApplyAll(old(Abs()), rs)
        decreases |file| - position
      {
        var read := Read(file, position, data);
        if read == 0 {
          return;
        }
        var parsed;
        parsed, rs := ParsePortion(file, position, position + read, data + read, old(Abs()), rs);
        data, position := data + read, position + read;
        if parsed < 0 {
          return -1;
        }
        data := data - parsed;
        MoveToFront(parsed, data, file, position);
      }
    }

    /** However fread portions the file out, the run is one parse of the whole file. */
    method ReadTrace(file: seq<byte>)
      requires buffer.Length == BUFFER_SIZE
      modifies this, buffer
      ensures Abs() == WholeRun(old(Abs()), file)
    {
      var data := ReadFile(file);
      if data > 0 {
        output := output + [Corrupt(data)];
      }
      PrintState();
    }
  }

  lemma NextRecord(b: seq<byte>, at: nat, end: nat, rs: seq<Record>, s: State)
    requires at < end <= |b| && EntrySize(b[at]) != 0 && EntrySize(b[at]) <= end - at
    ensures var (next, n) := (Decode(b, at), at + EntrySize(b[at]));
            && rs + Records(b, at, end).0 == rs + [next] + Records(b, n, end).0
            && Records(b, at, end).1 == Records(b, n, end).1
            && ApplyAll(s, rs + [next]) == Apply(ApplyAll(s, rs), next)
  {
    var next := Decode(b, at);
    ApplyAllSplit(s, rs, [next]);
    assert ApplyAll(ApplyAll(s, rs), [next]) == Apply(ApplyAll(s, rs), next);
  }

  lemma LastRecord(b: seq<byte>, at: nat, end: nat, rs: seq<Record>)
    requires at <= end <= |b|
    requires at < end ==> EntrySize(b[at]) == 0 || end - at < EntrySize(b[at])
    ensures rs + Records(b, at, end).0 == rs
    ensures Records(b, at, end).1 == if at < end && EntrySize(b[at]) == 0 then AtGarbage(b[at]) else Left(end - at)
  {
  }

  /** A portion of the file after `mid` goes on with the records where those before it ended. */
  lemma NextPortion(file: seq<byte>, mid: nat, end: nat, s: State, rs: seq<Record>, from: nat)
    requires from <= mid <= end <= |file| && Records(file, 0, mid) == (rs, Left(mid - from))
    ensures var (more, stop) := Records(file, from, end);
            && (stop.Left? ==>
                  && Records(file, 0, end) == (rs + more, stop)
                  && ParseAll(ApplyAll(s, rs), file, from, end) == ApplyAll(s, rs + more))
            && (stop.AtGarbage? ==>
                  && Records(file, 0, |file|).1 == stop
                  && ParseAll(ApplyAll(s, rs), file, from, end) == ParseAll(s, file, 0, |file|))
  {
    RecordsSplit(file, 0, mid, end);
    RecordsSplit(file, 0, end, |file|);
    ApplyAllSplit(s, rs, Records(file, from, end).0);
  }
}

/** The tracer inside the application: a buffer that is written out when an entry does not fit. */
module TraceWriter {
  import opened TraceFormat
  import opened TraceLaws

  const BUFFER_SIZE: nat := 1024 * 1024

  class Writer {
    const buffer: array<byte>
    var data: nat
    var file: seq<byte>

    ghost predicate Valid()
      reads this
    {
      buffer.Length == BUFFER_SIZE && data <= buffer.Length
    }

    /** What the trace file holds once the buffer is written out. */
    ghost function Contents(): seq<byte>
      requires Valid()
      reads this, buffer
    {
      file + buffer[..data]
    }

    constructor ()
      ensures Valid() && Contents() == [] && fresh(buffer)
    {
      buffer := new byte[BUFFER_SIZE];
      data, file := 0, [];
    }

    method WriteBlock()
      requires Valid()
      modifies this
      ensures Valid() && data == 0 && file == old(Contents())
    {
      if data > 0 {
        file := file + buffer[..data];
        data := 0;
      }
    }

    method AppendEntry(bytes: seq<byte>)
      requires Valid() && |bytes| <= BUFFER_SIZE
      modifies this, buffer
      ensures Valid() && Contents() == old(Contents()) + bytes
    {
      if data + |bytes| > buffer.Length {
        WriteBlock();
      }
      label appending:
      forall i | 0 <= i < |bytes| {
        buffer[data + i] := bytes[i];
      }
      assert buffer[..data + |bytes|] == old@appending(buffer[..data]) + bytes;
      data := data + |bytes|;
    }

    method LogMalloc(time: u32, size: u64, result: u64)
      requires Valid()
      modifies this, buffer
      ensures Valid() && Contents() == old(Contents()) + Encode(Malloc(time, size, result))
    {
      AppendEntry([1] + ToLe(time, 4) + ToLe(size, 8) + ToLe(result, 8));
    }

    /** realloc of a null pointer is logged as malloc. */
    method LogRealloc(time: u32, ptr: u64, size: u64, result: u64)
      requires Valid()
      modifies this, buffer
      ensures Valid()
      ensures Contents() == old(Contents()) +
                Encode(if ptr == 0 then Malloc(time, size, result) else Realloc(time, ptr, size, result))
    {
      if ptr == 0 {
        LogMalloc(time, size, result);
        return;
      }
      AppendEntry([2] + ToLe(time, 4) + ToLe(ptr, 8) + ToLe(size, 8) + ToLe(result, 8));
    }

    /** free of a null pointer is not logged. */
    method LogFree(time: u32, ptr: u64)
      requires Valid()
      modifies this, buffer
      ensures Valid()
      ensures Contents() == old(Contents()) + if ptr == 0 then [] else Encode(Free(time, ptr))
    {
      if ptr != 0 {
        AppendEntry([3] + ToLe(time, 4) + ToLe(ptr, 8));
      }
    }
  }
}
