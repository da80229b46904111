/** The top-process ranking: scan the process table, skip the processes
    whose attributes cannot be read, sort by CPU usage (highest first,
    stable) and cut the list with Python's slice `[:limit]`.

    Percentages are integers counting hundredths of a percent; they stand in
    for the values the source rounds to two decimals. */
module Ranking {
  import opened Wrappers

  /** The exception a per-process attribute read can raise and that the scan swallows. */
  datatype ReadError = NoSuchProcess | AccessDenied

  /** One entry of the process enumeration, as reading its attributes turned
      out: the five attributes (name, CPU, memory and status may each be
      missing), or the exception the read raised. */
  datatype ProcRead =
    | Read(pid: int, name: Option<string>, cpu: Option<int>, mem: Option<int>, status: Option<string>)
    | Failed(reason: ReadError)

  /** One row of the reported process list. */
  datatype ProcessInfo = ProcessInfo(
    pid: int, name: Option<string>, cpuPercent: int, memoryPercent: int, status: Option<string>)

  /** The row built for a successful read: a missing CPU or memory
      percentage is reported as 0, the other attributes are copied as read. */
  function ToInfo(row: ProcRead): (info: ProcessInfo)
    requires row.Read?
    ensures info.pid == row.pid && info.name == row.name && info.status == row.status
    ensures row.cpu.None? ==> info.cpuPercent == 0
    ensures row.mem.None? ==> info.memoryPercent == 0
    ensures row.cpu.Some? ==> info.cpuPercent == row.cpu.value
    ensures row.mem.Some? ==> info.memoryPercent == row.mem.value
  {
    ProcessInfo(
      row.pid, row.name,
      if row.cpu.Some? then row.cpu.value else 0,
      if row.mem.Some? then row.mem.value else 0,
      row.status)
  }

  /** The rows the scan collects, in enumeration order. */
  function Readable(table: seq<ProcRead>): (procs: seq<ProcessInfo>)
    ensures |procs| <= |table|
  {
    if table == [] then []
    else
      var last := table[|table| - 1];
      Readable(table[..|table| - 1]) + (if last.Read? then [ToInfo(last)] else [])
  }

  // ---------------------------------------------------------------------
  // The scan

  lemma {:induction false} ReadableAppend(a: seq<ProcRead>, b: seq<ProcRead>)
    ensures Readable(a + b) == Readable(a) + Readable(b)
    decreases |b|
  {
    if b == [] {
      assert a + b == a;
    } else {
      var b' := b[..|b| - 1];
      assert (a + b)[..|a + b| - 1] == a + b';
      assert (a + b)[|a + b| - 1] == b[|b| - 1];
      ReadableAppend(a, b');
    }
  }

  /** A read that raises contributes no row and does not stop the scan of
      the processes enumerated after it. */
  lemma ReadableSkipsFailure(before: seq<ProcRead>, e: ReadError, after: seq<ProcRead>)
    ensures Readable(before + [Failed(e)] + after) == Readable(before) + Readable(after)
  {
    var failed := [Failed(e)];
    assert failed[..0] == [];
    assert Readable(failed) == [];
    ReadableAppend(before, failed);
    ReadableAppend(before + failed, after);
  }

  /** A row is collected exactly when some successfully read process produced it. */
  lemma {:induction false} ReadableMembers(table: seq<ProcRead>, x: ProcessInfo)
    ensures x in Readable(table) <==>
      exists j :: 0 <= j < |table| && table[j].Read? && ToInfo(table[j]) == x
  {
    if table != [] {
      var init := table[..|table| - 1];
      ReadableMembers(init, x);
      if x in Readable(table) && x !in Readable(init) {
        assert table[|table| - 1].Read? && ToInfo(table[|table| - 1]) == x;
      }
      if exists j :: 0 <= j < |table| && table[j].Read? && ToInfo(table[j]) == x {
        var j :| 0 <= j < |table| && table[j].Read? && ToInfo(table[j]) == x;
        if j < |table| - 1 {
          assert init[j] == table[j];
        }
      }
    }
  }

  // ---------------------------------------------------------------------
  // Python's `sorted(procs, key=cpu_percent, reverse=True)`: a stable sort,
  // highest CPU first, equal CPU values in their original order.

  ghost predicate SortedDesc(s: seq<ProcessInfo>) {
    forall i, j :: 0 <= i < j < |s| ==> s[i].cpuPercent >= s[j].cpuPercent
  }

  /** The rows of `s` whose CPU percentage is `k`, in their order in `s`. */
  function WithCpu(s: seq<ProcessInfo>, k: int): seq<ProcessInfo> {
    if s == [] then []
    else (if s[0].cpuPercent == k then [s[0]] else []) + WithCpu(s[1..], k)
  }

  /** Places `x` in front of the first row whose CPU percentage is not
      above its own. */
  function Insert(x: ProcessInfo, r: seq<ProcessInfo>): seq<ProcessInfo> {
    if r == [] || x.cpuPercent >= r[0].cpuPercent then [x] + r
    else [r[0]] + Insert(x, r[1..])
  }

  /** The reference stable descending sort: insertion sort from the back,
      so that an earlier row goes in front of later rows with equal CPU. */
  function SortDesc(s: seq<ProcessInfo>): seq<ProcessInfo> {
    if s == [] then [] else Insert(s[0], SortDesc(s[1..]))
  }

  lemma {:induction false} InsertPermutation(x: ProcessInfo, r: seq<ProcessInfo>)
    ensures multiset(Insert(x, r)) == multiset(r) + multiset{x}
  {
    if r != [] && x.cpuPercent < r[0].cpuPercent {
      InsertPermutation(x, r[1..]);
      assert r == [r[0]] + r[1..];
    }
  }

  lemma SortedHeadIsMax(s: seq<ProcessInfo>, x: ProcessInfo)
    requires SortedDesc(s) && x in s
    ensures s[0].cpuPercent >= x.cpuPercent
  {
  }

  /** No row of `s` uses more CPU than `b`. */
  ghost predicate AtMost(s: seq<ProcessInfo>, b: int) {
    forall i :: 0 <= i < |s| ==> s[i].cpuPercent <= b
  }

  lemma {:induction false} InsertAtMost(x: ProcessInfo, r: seq<ProcessInfo>, b: int)
    requires AtMost(r, b) && x.cpuPercent <= b
    ensures AtMost(Insert(x, r), b)
  {
    if r != [] && x.cpuPercent < r[0].cpuPercent {
      InsertAtMost(x, r[1..], b);
      var res := [r[0]] + Insert(x, r[1..]);
      forall i | 0 <= i < |res|
        ensures res[i].cpuPercent <= b
      {
        if i > 0 {
          assert res[i] == Insert(x, r[1..])[i - 1];
        }
      }
    }
  }

  lemma {:induction false} InsertSorted(x: ProcessInfo, r: seq<ProcessInfo>)
    requires SortedDesc(r)
    ensures SortedDesc(Insert(x, r))
  {
    if r != [] && x.cpuPercent < r[0].cpuPercent {
      var t := Insert(x, r[1..]);
      InsertSorted(x, r[1..]);
      assert AtMost(r[1..], r[0].cpuPercent) by {
        forall i | 0 <= i < |r[1..]|
          ensures r[1..][i].cpuPercent <= r[0].cpuPercent
        {
          assert r[1..][i] == r[i + 1];
        }
      }
      InsertAtMost(x, r[1..], r[0].cpuPercent);
      var res := [r[0]] + t;
      forall i, j | 0 <= i < j < |res|
        ensures res[i].cpuPercent >= res[j].cpuPercent
      {
        assert res[j] == t[j - 1];
        if i > 0 {
          assert res[i] == t[i - 1];
        }
      }
    }
  }

  lemma {:induction false} InsertWithCpu(x: ProcessInfo, r: seq<ProcessInfo>, k: int)
    ensures WithCpu(Insert(x, r), k) == (if x.cpuPercent == k then [x] else []) + WithCpu(r, k)
  {
    if r == [] || x.cpuPercent >= r[0].cpuPercent {
      var res := [x] + r;
      assert res[0] == x && res[1..] == r;
    } else {
      var t := Insert(x, r[1..]);
      InsertWithCpu(x, r[1..], k);
      var res := [r[0]] + t;
      assert res[0] == r[0] && res[1..] == t;
      assert WithCpu(res, k) == (if r[0].cpuPercent == k then [r[0]] else []) + WithCpu(t, k);
      assert WithCpu(r, k) == (if r[0].cpuPercent == k then [r[0]] else []) + WithCpu(r[1..], k);
      if x.cpuPercent == k {
        assert WithCpu(res, k) == [x] + WithCpu(r[1..], k);
      } else {
        assert WithCpu(t, k) == WithCpu(r[1..], k);
      }
    }
  }

  /** The sort reorders the rows and neither adds nor drops any. */
  lemma {:induction false} SortDescPermutation(s: seq<ProcessInfo>)
    ensures multiset(SortDesc(s)) == multiset(s)
    ensures |SortDesc(s)| == |s|
  {
    if s != [] {
      SortDescPermutation(s[1..]);
      InsertPermutation(s[0], SortDesc(s[1..]));
      assert s == [s[0]] + s[1..];
    }
    assert |multiset(SortDesc(s))| == |SortDesc(s)|;
  }

  /** The sorted rows are ordered non-increasing by CPU percentage. */
  lemma {:induction false} SortDescSorted(s: seq<ProcessInfo>)
    ensures SortedDesc(SortDesc(s))
  {
    if s != [] {
      SortDescSorted(s[1..]);
      InsertSorted(s[0], SortDesc(s[1..]));
    }
  }

  /** Stability: the rows sharing one CPU percentage keep their enumeration order. */
  lemma {:induction false} SortDescStable(s: seq<ProcessInfo>, k: int)
    ensures WithCpu(SortDesc(s), k) == WithCpu(s, k)
  {
    if s != [] {
      SortDescStable(s[1..], k);
      InsertWithCpu(s[0], SortDesc(s[1..]), k);
    }
  }

  lemma {:induction false} WithCpuMembers(s: seq<ProcessInfo>, k: int, x: ProcessInfo)
    ensures x in WithCpu(s, k) <==> x in s && x.cpuPercent == k
  {
    if s != [] {
      WithCpuMembers(s[1..], k, x);
      assert s == [s[0]] + s[1..];
    }
  }

  /** A non-empty sequence has a row with the CPU percentage of its head. */
  lemma WithCpuOfHead(s: seq<ProcessInfo>)
    ensures s != [] ==> WithCpu(s, s[0].cpuPercent) != []
  {
  }

  /** Two sorted arrangements that agree on the order of every group of
      equal CPU percentages are the same arrangement. */
  lemma {:induction false} SortedSameGroupsEqual(t: seq<ProcessInfo>, u: seq<ProcessInfo>)
    requires SortedDesc(t) && SortedDesc(u)
    requires forall k :: WithCpu(t, k) == WithCpu(u, k)
    ensures t == u
    decreases |t|
  {
    if t == [] || u == [] {
      WithCpuOfHead(t);
      WithCpuOfHead(u);
      if t != u {
        assert false;
      }
    } else {
      var m, m' := t[0].cpuPercent, u[0].cpuPercent;
      WithCpuMembers(u, m, t[0]);
      WithCpuMembers(t, m', u[0]);
      SortedHeadIsMax(u, t[0]);
      SortedHeadIsMax(t, u[0]);
      assert m == m';
      assert WithCpu(t, m)[0] == t[0] && WithCpu(u, m)[0] == u[0];
      assert t[0] == u[0];
      forall k
        ensures WithCpu(t[1..], k) == WithCpu(u[1..], k)
      {
        if k == m {
          assert WithCpu(t, k)[1..] == WithCpu(t[1..], k);
          assert WithCpu(u, k)[1..] == WithCpu(u[1..], k);
        } else {
          assert WithCpu(t, k) == WithCpu(t[1..], k);
          assert WithCpu(u, k) == WithCpu(u[1..], k);
        }
      }
      SortedSameGroupsEqual(t[1..], u[1..]);
      assert t == [t[0]] + t[1..] && u == [u[0]] + u[1..];
    }
  }

  /** `SortDesc` is the only stable descending sort: any arrangement that is
      sorted highest-CPU-first and keeps each group of equal CPU percentages
      in enumeration order is exactly `SortDesc`'s result. */
  lemma SortDescUnique(s: seq<ProcessInfo>, t: seq<ProcessInfo>)
    requires SortedDesc(t)
    requires forall k :: WithCpu(t, k) == WithCpu(s, k)
    ensures t == SortDesc(s)
  {
    SortDescSorted(s);
    forall k
      ensures WithCpu(t, k) == WithCpu(SortDesc(s), k)
    {
      SortDescStable(s, k);
    }
    SortedSameGroupsEqual(t, SortDesc(s));
  }

  lemma {:induction false} WithCpuPrefix(s: seq<ProcessInfo>, n: nat, k: int)
    requires n <= |s|
    ensures WithCpu(s[..n], k) <= WithCpu(s, k)
  {
    if n > 0 {
      WithCpuPrefix(s[1..], n - 1, k);
      assert s[..n][1..] == s[1..][..n - 1];
    }
  }

  // ---------------------------------------------------------------------
  // Python's slice `s[:k]`

  /** Where the slice `s[:k]` ends on a list of length `n`: a non-negative
      `k` counts from the front and is capped at `n`; a negative `k` counts
      back from the end and is floored at 0. */
  function SliceEnd(n: nat, k: int): (e: nat)
    ensures e <= n
  {
    if k >= 0 then (if k <= n then k else n)
    else (if n + k >= 0 then n + k else 0)
  }

  /** What `get_top_processes(limit)` returns for the given process table. */
  function TopProcesses(table: seq<ProcRead>, limit: int): seq<ProcessInfo> {
    var ranked := SortDesc(Readable(table));
    ranked[..SliceEnd(|ranked|, limit)]
  }

  /** The collecting loop, the sort and the slice of `get_top_processes`. */
  method GetTopProcesses(table: seq<ProcRead>, limit: int) returns (top: seq<ProcessInfo>)
    ensures top == TopProcesses(table, limit)
    ensures SortedDesc(top)
    ensures |top| <= |Readable(table)| && (0 <= limit ==> |top| <= limit)
  {
    var procs: seq<ProcessInfo> := [];
    for i := 0 to |table|
      invariant procs == Readable(table[..i])
    {
      assert table[..i + 1][..i] == table[..i];
      if table[i].Read? {
        procs := procs + [ToInfo(table[i])];
      }
      // a Failed read (NoSuchProcess, AccessDenied) is passed over
    }
    assert table[..|table|] == table;
    var ranked := SortDesc(procs);
    top := ranked[..SliceEnd(|ranked|, limit)];
    TopSorted(table, limit);
    TopLength(table, limit);
  }

  // ---------------------------------------------------------------------
  // What the ranking promises

  /** The list has at most as many rows as there are readable processes; for
      a non-negative limit it has min(limit, readable) rows, and a negative
      limit drops that many rows from the end. */
  lemma TopLength(table: seq<ProcRead>, limit: int)
    ensures var n := |Readable(table)|;
      && |TopProcesses(table, limit)| <= n
      && (0 <= limit ==> |TopProcesses(table, limit)| == if limit <= n then limit else n)
      && (limit < 0 ==> |TopProcesses(table, limit)| == if n + limit >= 0 then n + limit else 0)
  {
    SortDescPermutation(Readable(table));
  }

  /** The list is ordered non-increasing by CPU percentage. */
  lemma TopSorted(table: seq<ProcRead>, limit: int)
    ensures SortedDesc(TopProcesses(table, limit))
  {
    SortDescSorted(Readable(table));
  }

  /** Rows with equal CPU percentage appear in enumeration order: for every
      percentage, the reported rows with it are the first ones of the
      readable rows with it, in the same order. */
  lemma TopStable(table: seq<ProcRead>, limit: int, k: int)
    ensures WithCpu(TopProcesses(table, limit), k) <= WithCpu(Readable(table), k)
  {
    var ranked := SortDesc(Readable(table));
    SortDescPermutation(Readable(table));
    WithCpuPrefix(ranked, SliceEnd(|ranked|, limit), k);
    SortDescStable(Readable(table), k);
  }

  /** Every reported row was produced by a successfully read process. */
  lemma TopFromReadProcesses(table: seq<ProcRead>, limit: int, x: ProcessInfo)
    requires x in TopProcesses(table, limit)
    ensures exists j :: 0 <= j < |table| && table[j].Read? && ToInfo(table[j]) == x
  {
    var ranked := SortDesc(Readable(table));
    SortDescPermutation(Readable(table));
    assert x in ranked;
    assert x in multiset(Readable(table));
    ReadableMembers(table, x);
  }

  lemma SplitMultiset(s: seq<ProcessInfo>, e: nat)
    requires e <= |s|
    ensures multiset(s) == multiset(s[..e]) + multiset(s[e..])
  {
    assert s == s[..e] + s[e..];
  }

  lemma SortedSplitOrder(s: seq<ProcessInfo>, e: nat, x: ProcessInfo, y: ProcessInfo)
    requires SortedDesc(s) && e <= |s|
    requires x in s[..e] && y in s[e..]
    ensures x.cpuPercent >= y.cpuPercent
  {
  }

  /** The reported rows are the busiest ones: each of them uses at least as
      much CPU as every readable row the slice left out. */
  lemma TopOutranksRest(table: seq<ProcRead>, limit: int, x: ProcessInfo, y: ProcessInfo)
    requires x in TopProcesses(table, limit)
    requires y in multiset(Readable(table)) - multiset(TopProcesses(table, limit))
    ensures x.cpuPercent >= y.cpuPercent
  {
    var readable := Readable(table);
    var ranked := SortDesc(readable);
    var e := SliceEnd(|ranked|, limit);
    assert TopProcesses(table, limit) == ranked[..e];
    SortDescPermutation(readable);
    SortDescSorted(readable);
    SplitMultiset(ranked, e);
    assert y in multiset(ranked[e..]);
    SortedSplitOrder(ranked, e, x, y);
  }
}
