/** The two endpoints built on the ranking and the disk report: the process
    list with its `limit` guard, and the aggregate metrics response with its
    fixed disk path and process count. */
module Api {
  import opened Wrappers
  import opened Ranking
  import opened Disk

  /** The largest `limit` the process list accepts. */
  const MaxLimit := 50
  /** The `limit` the process list uses when the query gives none. */
  const DefaultLimit := 10
  const LimitTooHigh: string := "Limit cannot exceed 50"

  /** The disk path and the process count the aggregate response always uses. */
  const MetricsDiskPath: string := "/"
  const MetricsTopLimit := 5

  /** The body of a successful process-list response. */
  datatype ProcessesResponse = ProcessesResponse(timestamp: string, count: int, processes: seq<ProcessInfo>)

  /** The body of a successful aggregate response. The system, CPU, memory and
      network sections are passed in as their helpers produced them. */
  datatype Metrics = Metrics(
    timestamp: string, system: Json, cpu: Json, memory: Json,
    disk: map<string, Json>, network: Json, topProcesses: seq<ProcessInfo>)

  /** `get_processes`: rejects a limit above 50 before the process table is
      looked at; otherwise reports the requested limit as `count` beside the
      ranked rows. No lower bound is checked. */
  function GetProcesses(now: string, table: seq<ProcRead>, limit: int)
    : (r: Result<ProcessesResponse, HttpError>)
    ensures limit > MaxLimit ==> r == Failure(HttpError(400, LimitTooHigh))
    ensures limit <= MaxLimit ==> r.Success?
    ensures r.Success? ==> r.value.timestamp == now && r.value.count == limit
    ensures r.Success? ==> r.value.processes == TopProcesses(table, limit)
  {
    if limit > MaxLimit then Failure(HttpError(400, LimitTooHigh))
    else Success(ProcessesResponse(now, limit, TopProcesses(table, limit)))
  }

  /** How the response depends on the value of `limit`: 50 is accepted, a
      limit from 0 to 50 yields min(limit, readable) rows, 0 yields none, and
      a negative limit yields all but the last |limit| ranked rows; `count`
      is the requested limit whatever the number of rows. */
  lemma ProcessesByLimit(now: string, table: seq<ProcRead>, limit: int)
    ensures var r := GetProcesses(now, table, limit);
      var n := |Readable(table)|;
      && |SortDesc(Readable(table))| == n
      && (limit == MaxLimit ==> r.Success?)
      && (0 <= limit <= MaxLimit ==>
            r.Success? && r.value.count == limit
            && |r.value.processes| == (if limit <= n then limit else n))
      && (limit == 0 ==> r.Success? && r.value.processes == [])
      && (limit < 0 ==>
            r.Success? && r.value.count == limit
            && r.value.processes == SortDesc(Readable(table))[..if n + limit >= 0 then n + limit else 0])
  {
    TopLength(table, limit);
    SortDescPermutation(Readable(table));
  }

  /** With the default limit the list has at most ten rows, ordered by CPU. */
  lemma DefaultLimitResponse(now: string, table: seq<ProcRead>)
    ensures var r := GetProcesses(now, table, DefaultLimit);
      r.Success? && |r.value.processes| <= 10 && SortedDesc(r.value.processes)
  {
    TopLength(table, DefaultLimit);
    TopSorted(table, DefaultLimit);
  }

  /** `get_all_metrics`: one timestamp for the whole body, the disk report
      for "/", and the five busiest processes. A failed disk report makes the
      whole response the disk report's 400 error. */
  function GetAllMetrics(
    now: string, system: Json, cpu: Json, memory: Json,
    usage: Probe<DiskUsage>, io: Probe<Option<DiskIo>>, network: Json,
    table: seq<ProcRead>)
    : (r: Result<Metrics, HttpError>)
    ensures r.Failure? <==> usage.Raised? || io.Raised?
    ensures r.Failure? ==> r.error == HttpError(400, "Invalid disk path: /")
    ensures r.Success? ==> r.value.timestamp == now
    ensures r.Success? ==> "path" in r.value.disk && r.value.disk["path"] == JStr("/")
    ensures r.Success? ==> r.value.topProcesses == TopProcesses(table, 5)
    ensures r.Success? ==> r.value.disk == DiskInfo(MetricsDiskPath, usage, io).value
    ensures r.Success? ==> ("io" in r.value.disk <==> io.value.Some?)
    ensures r.Success? ==>
      r.value.system == system && r.value.cpu == cpu
      && r.value.memory == memory && r.value.network == network
  {
    var disk := DiskInfo(MetricsDiskPath, usage, io);
    if disk.Failure? then Failure(disk.error)
    else
      Success(Metrics(now, system, cpu, memory, disk.value, network,
                      TopProcesses(table, MetricsTopLimit)))
  }

  /** The aggregate response lists min(5, readable) processes, busiest first. */
  lemma MetricsTopProcesses(
    now: string, system: Json, cpu: Json, memory: Json,
    usage: Probe<DiskUsage>, io: Probe<Option<DiskIo>>, network: Json,
    table: seq<ProcRead>)
    requires usage.Got? && io.Got?
    ensures var r := GetAllMetrics(now, system, cpu, memory, usage, io, network, table);
      var n := |Readable(table)|;
      && r.Success?
      && |r.value.topProcesses| == (if n < 5 then n else 5)
      && SortedDesc(r.value.topProcesses)
  {
    TopLength(table, MetricsTopLimit);
    TopSorted(table, MetricsTopLimit);
  }
}
