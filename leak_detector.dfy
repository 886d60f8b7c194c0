/**
 * The bookkeeping of MemoryLeakingChecker: every block handed out by the
 * overloaded new operators is recorded in a circular doubly linked list
 * hanging off a static sentinel `_root`, a running counter
 * `_memory_allocated` holds the bytes not yet released, and a static
 * reference count `callCount` runs the leak report when the last
 * `_leak_detector` object is destroyed.
 *
 * The list is modelled as the sequence of its records from `_root.next`
 * round to `_root.prev`; a block's address becomes a handle.
 */
module LeakDetector {
  import opened Wrappers

  /** `unsigned int` and `unsigned long` / `size_t` on an LP64 target. */
  const UINT_MODULUS: int := 0x1_0000_0000
  const ULONG_MODULUS: int := 0x1_0000_0000_0000_0000

  /** The values of an `unsigned int`. */
  type Uint32 = x: int | 0 <= x < UINT_MODULUS

  /** One `_MemoryList` node: the block's handle, size, array flag, file copy (None for NULL) and line. */
  datatype Record = Record(handle: nat, size: nat, isArray: bool, file: Option<string>, line: nat)

  /** The sum of the sizes of `records`, unbounded. */
  function SumSizes(records: seq<Record>): nat
  {
    if records == [] then 0 else records[0].size + SumSizes(records[1..])
  }

  /** Removing the record at index i takes exactly its size off the sum. */
  lemma {:induction false} SumSizesRemove(records: seq<Record>, i: nat)
    requires i < |records|
    ensures SumSizes(records) == SumSizes(records[..i] + records[i + 1..]) + records[i].size
  {
    if i == 0 {
      assert records[..0] + records[1..] == records[1..];
    } else {
      var rest := records[1..];
      SumSizesRemove(rest, i - 1);
      var shorter := records[..i] + records[i + 1..];
      assert shorter == [records[0]] + (rest[..i - 1] + rest[i..]);
      assert shorter[1..] == rest[..i - 1] + rest[i..];
    }
  }

  /** The list without the record at index i, the others in their order. */
  function Unlinked(records: seq<Record>, i: nat): (r: seq<Record>)
    requires i < |records|
    ensures |r| == |records| - 1
    ensures forall k :: 0 <= k < i ==> r[k] == records[k]
    ensures forall k :: i <= k < |r| ==> r[k] == records[k + 1]
  {
    records[..i] + records[i + 1..]
  }

  /** Handles are pairwise distinct and all below `bound`. */
  predicate HandlesBelow(records: seq<Record>, bound: nat)
  {
    && (forall i, j :: 0 <= i < j < |records| ==> records[i].handle != records[j].handle)
    && (forall i :: 0 <= i < |records| ==> records[i].handle < bound)
  }

  /** A record whose handle is the old bound can go in front, under a bound one higher. */
  lemma PushHandlesBelow(r: Record, records: seq<Record>)
    requires HandlesBelow(records, r.handle)
    ensures HandlesBelow([r] + records, r.handle + 1)
  {
    var s := [r] + records;
    forall a, b | 0 <= a < b < |s|
      ensures s[a].handle != s[b].handle
    {
      assert s[b] == records[b - 1];
    }
  }

  /** Unlinking a record keeps the handles distinct and below the bound. */
  lemma UnlinkedHandlesBelow(records: seq<Record>, i: nat, bound: nat)
    requires i < |records| && HandlesBelow(records, bound)
    ensures HandlesBelow(Unlinked(records, i), bound)
  {
    var r := Unlinked(records, i);
    forall a, b | 0 <= a < b < |r|
      ensures r[a].handle != r[b].handle
    {
      var a' := if a < i then a else a + 1;
      var b' := if b < i then b else b + 1;
      assert r[a] == records[a'] && r[b] == records[b'];
    }
  }

  /** Unlinking and then re-inserting at the same place restores the list. */
  lemma UnlinkedRelink(records: seq<Record>, i: nat)
    requires i < |records|
    ensures Unlinked(records, i)[..i] + [records[i]] + Unlinked(records, i)[i..] == records
  {
    var r := Unlinked(records, i);
    assert r[..i] == records[..i];
    assert r[i..] == records[i + 1..];
  }

  /** The index of the record with handle h, if any. */
  function Find(records: seq<Record>, h: nat): (r: Option<nat>)
    ensures r.Some? ==> r.value < |records| && records[r.value].handle == h
    ensures r.None? ==> forall k :: 0 <= k < |records| ==> records[k].handle != h
  {
    if records == [] then None
    else if records[0].handle == h then Some(0)
    else match Find(records[1..], h)
      case None => None
      case Some(k) => Some(k + 1)
  }

  /** One line of the leak report; `position` is None for "(Cannot find position)". */
  datatype LeakLine = LeakLine(isArray: bool, handle: nat, size: nat, position: Option<(string, nat)>)

  /** The leak report: the per-block lines, the count returned, and the "Total" line when the count is not 0. */
  datatype Report = Report(lines: seq<LeakLine>, count: nat, total: Option<(nat, nat)>)

  function LineOf(r: Record): LeakLine
  {
    LeakLine(r.isArray, r.handle, r.size, if r.file.Some? then Some((r.file.value, r.line)) else None)
  }

  /**
   * What LeakDetector prints and returns for a list and a byte counter:
   * one line per record in list order, the count as an `unsigned int`,
   * and the total with the count and the byte counter when the count is
   * not 0.
   */
  function ReportOf(records: seq<Record>, memoryAllocated: nat): (r: Report)
    ensures |r.lines| == |records| && r.count < UINT_MODULUS
    ensures forall i :: 0 <= i < |records| ==> r.lines[i].handle == records[i].handle && r.lines[i].size == records[i].size
    ensures r.total.Some? <==> r.count != 0
    ensures r.total.Some? ==> r.total.value == (r.count, memoryAllocated)
  {
    var count := |records| % UINT_MODULUS;
    Report(seq(|records|, i requires 0 <= i < |records| => LineOf(records[i])), count,
           if count != 0 then Some((count, memoryAllocated)) else None)
  }

  /** With no block outstanding the report prints nothing and returns 0. */
  lemma EmptyReport(memoryAllocated: nat)
    ensures ReportOf([], memoryAllocated) == Report([], 0, None)
  {
  }

  /** The list `_root` heads and the counter `_memory_allocated`. */
  class MemoryList {
    /** The records from `_root.next` to `_root.prev`. */
    var records: seq<Record>
    var memoryAllocated: nat
    /** A handle no record has yet: the model's stand-in for a fresh malloc address. */
    var nextHandle: nat

    /** Handles are distinct and below nextHandle, and the counter is the sum of the sizes modulo 2^64. */
    ghost predicate Valid()
      reads this
    {
      && HandlesBelow(records, nextHandle)
      && memoryAllocated == SumSizes(records) % ULONG_MODULUS
    }

    /** The static initialisation: `_root` points to itself and nothing is allocated. */
    constructor()
      ensures Valid() && records == [] && memoryAllocated == 0
    {
      records := [];
      memoryAllocated := 0;
      nextHandle := 0;
    }

    /**
     * AllocateMemory: link a new record with the block's size, array flag,
     * line and a copy of the file name right after `_root`, and add the
     * size to the counter. Returns the new block's handle.
     */
    method AllocateMemory(size: nat, isArray: bool, file: Option<string>, line: nat) returns (handle: nat)
      requires Valid() && size < ULONG_MODULUS && line < UINT_MODULUS
      modifies this
      ensures Valid()
      ensures records == [Record(handle, size, isArray, file, line)] + old(records)
      ensures memoryAllocated == (old(memoryAllocated) + size) % ULONG_MODULUS
      ensures forall k :: 0 <= k < |old(records)| ==> old(records)[k].handle != handle
    {
      handle := nextHandle;
      var r := Record(handle, size, isArray, file, line);
      PushHandlesBelow(r, records);
      assert SumSizes([r] + records) == size + SumSizes(records);
      nextHandle := nextHandle + 1;
      records := [r] + records;
      memoryAllocated := (memoryAllocated + size) % ULONG_MODULUS;
    }

    /**
     * DeleteMemory: when the array flag matches the record's, unlink the
     * record of `handle` and take its size off the counter; otherwise do
     * nothing.
     */
    method DeleteMemory(handle: nat, isArray: bool)
      requires Valid() && Find(records, handle).Some?
      modifies this
      ensures Valid() && nextHandle == old(nextHandle)
      ensures var i := Find(old(records), handle).value;
        if old(records)[i].isArray != isArray then
          records == old(records) && memoryAllocated == old(memoryAllocated)
        else
          records == Unlinked(old(records), i) && memoryAllocated == (old(memoryAllocated) - old(records)[i].size) % ULONG_MODULUS
    {
      var i := Find(records, handle).value;
      var current := records[i];
      if current.isArray != isArray {
        return;
      }
      SumSizesRemove(records, i);
      UnlinkedHandlesBelow(records, i, nextHandle);
      records := Unlinked(records, i);
      memoryAllocated := (memoryAllocated - current.size) % ULONG_MODULUS;
    }
  }

  /** `_leak_detector`, whose instances share the static reference count `callCount`. */
  class ExitCounter {
    var callCount: Uint32

    /** The static initialisation of callCount. */
    constructor()
      ensures callCount == 0
    {
      callCount := 0;
    }

    /** The constructor of one more `_leak_detector`: callCount goes up by one, as an `unsigned int`. */
    method Construct()
      modifies this
      ensures callCount == Step(old(callCount), Constructed).0
    {
      callCount := (callCount + 1) % UINT_MODULUS;
    }

    /** The destructor: callCount goes down by one, and the report runs when it reaches 0. */
    method Destruct(list: MemoryList) returns (report: Option<Report>)
      modifies this
      ensures (callCount, report.Some?) == Step(old(callCount), Destroyed)
      ensures report.Some? ==> report.value == ReportOf(list.records, list.memoryAllocated)
    {
      callCount := (callCount - 1) % UINT_MODULUS;
      if callCount == 0 {
        var r := LeakDetector(list);
        report := Some(r);
      } else {
        report := None;
      }
    }

    /**
     * LeakDetector: walk the list from `_root.next` back to `_root`,
     * printing one line per record and counting them, then the total when
     * the count is not 0.
     */
    static method LeakDetector(list: MemoryList) returns (report: Report)
      ensures report == ReportOf(list.records, list.memoryAllocated)
    {
      var records := list.records;
      var lines: seq<LeakLine> := [];
      var count: nat := 0;
      var i := 0;
      while i < |records|
        invariant 0 <= i <= |records|
        invariant count == i % UINT_MODULUS
        invariant lines == seq(i, k requires 0 <= k < i => LineOf(records[k]))
      {
        lines := lines + [LineOf(records[i])];
        count := (count + 1) % UINT_MODULUS;
        i := i + 1;
      }
      var total := if count != 0 then Some((count, list.memoryAllocated)) else None;
      report := Report(lines, count, total);
    }
  }

  /** What happens to a `_leak_detector`. */
  datatype Event = Constructed | Destroyed

  /** One event's effect on callCount, and whether it runs the report. */
  function Step(callCount: Uint32, e: Event): (r: (Uint32, bool))
    ensures e == Constructed ==> r.0 == (callCount + 1) % UINT_MODULUS
    ensures e == Destroyed ==> r.0 == (callCount - 1) % UINT_MODULUS
    ensures r.1 <==> e == Destroyed && callCount == 1
  {
    match e
    case Constructed => (if callCount == UINT_MODULUS - 1 then 0 else callCount + 1, false)
    case Destroyed =>
      var c := if callCount == 0 then UINT_MODULUS - 1 else callCount - 1;
      (c, c == 0)
  }

  /** callCount after the events, from its initial 0. */
  function CountAfter(events: seq<Event>): Uint32
  {
    if events == [] then 0 else Step(CountAfter(events[..|events| - 1]), events[|events| - 1]).0
  }

  /** The indices of the events that run the report. */
  function ReportsIn(events: seq<Event>): set<nat>
  {
    if events == [] then {}
    else
      var n := |events| - 1;
      ReportsIn(events[..n]) + (if Step(CountAfter(events[..n]), events[n]).1 then {n} else {})
  }

  /** Constructions minus destructions so far. */
  function Depth(events: seq<Event>): int
  {
    if events == [] then 0
    else Depth(events[..|events| - 1]) + (if events[|events| - 1] == Constructed then 1 else -1)
  }

  /** Fewer than 2^32 objects alive after every prefix, and never fewer than none. */
  predicate DepthInRange(events: seq<Event>)
  {
    && 0 <= Depth(events) < UINT_MODULUS
    && (events != [] ==> DepthInRange(events[..|events| - 1]))
  }

  /** While the depth stays in range, callCount is the number of objects alive. */
  lemma {:induction false} CountIsDepth(events: seq<Event>)
    requires DepthInRange(events)
    ensures CountAfter(events) == Depth(events)
  {
    if events != [] {
      CountIsDepth(events[..|events| - 1]);
    }
  }

  /**
   * While fewer than 2^32 objects are alive and no destruction outruns the
   * constructions, the report runs at exactly those destructions that
   * leave none alive.
   */
  lemma {:induction false} ReportsWhenNoneAlive(events: seq<Event>)
    requires DepthInRange(events)
    ensures forall i :: i in ReportsIn(events) <==> 0 <= i < |events| && events[i] == Destroyed && Depth(events[..i + 1]) == 0
  {
    if events != [] {
      var n := |events| - 1;
      var init := events[..n];
      ReportsWhenNoneAlive(init);
      CountIsDepth(init);
      assert events[..n + 1] == events;
      forall i
        ensures i in ReportsIn(events) <==> 0 <= i < |events| && events[i] == Destroyed && Depth(events[..i + 1]) == 0
      {
        if 0 <= i < n {
          assert init[i] == events[i];
          assert init[..i + 1] == events[..i + 1];
        }
      }
    }
  }

  /** The program's pattern: n objects constructed, then all n destroyed. */
  function Balanced(n: nat): (r: seq<Event>)
    ensures |r| == 2 * n
  {
    seq(n, _ => Constructed) + seq(n, _ => Destroyed)
  }

  lemma {:induction false} BalancedDepth(n: nat, k: nat)
    requires k <= 2 * n
    ensures Depth(Balanced(n)[..k]) == if k <= n then k else 2 * n - k
  {
    if k > 0 {
      var b := Balanced(n);
      assert b[..k][..k - 1] == b[..k - 1];
      BalancedDepth(n, k - 1);
    }
  }

  /** Fewer than 2^32 objects keep every prefix of the pattern in range. */
  lemma {:induction false} BalancedInRange(n: nat, k: nat)
    requires n < UINT_MODULUS && k <= 2 * n
    ensures DepthInRange(Balanced(n)[..k])
  {
    BalancedDepth(n, k);
    if k > 0 {
      var b := Balanced(n);
      assert b[..k][..k - 1] == b[..k - 1];
      BalancedInRange(n, k - 1);
    }
  }

  /** Which events of the pattern run the report: the destructions that empty it. */
  lemma BalancedReports(n: nat, i: nat)
    requires 1 <= n < UINT_MODULUS
    ensures i in ReportsIn(Balanced(n)) <==> i == 2 * n - 1
  {
    var b := Balanced(n);
    BalancedInRange(n, 2 * n);
    assert b[..2 * n] == b;
    ReportsWhenNoneAlive(b);
    if i < 2 * n {
      BalancedDepth(n, i + 1);
    }
  }

  /** With 1 <= n < 2^32 objects, the report runs exactly once: at the last destruction. */
  lemma BalancedReportsOnce(n: nat)
    requires 1 <= n < UINT_MODULUS
    ensures ReportsIn(Balanced(n)) == {2 * n - 1}
  {
    forall i | i in ReportsIn(Balanced(n))
      ensures i == 2 * n - 1
    {
      BalancedReports(n, i);
    }
    BalancedReports(n, 2 * n - 1);
  }
}
