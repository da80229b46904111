/** Assembly of the disk report of `get_disk_info`: the usage figures for a
    path, with an `io` entry added only when I/O counters are available, and
    every failure turned into a 400 error naming the path. */
module Disk {
  import opened Wrappers

  /** The JSON values a response body is built from. */
  datatype Json = JStr(s: string) | JInt(n: int) | JObj(fields: map<string, Json>)

  /** What the disk-usage query reports for a path, already in the units of
      the response (hundredths of a gigabyte, hundredths of a percent). */
  datatype DiskUsage = DiskUsage(totalGb: int, usedGb: int, freeGb: int, percent: int)

  /** What the system-wide disk I/O query reports, in hundredths of a megabyte. */
  datatype DiskIo = DiskIo(readMb: int, writeMb: int)

  /** The keys every successful disk report carries. */
  const UsageKeys: set<string> := {"path", "total_gb", "used_gb", "free_gb", "percent"}

  const InvalidPathPrefix: string := "Invalid disk path: "

  function UsageFields(path: string, usage: DiskUsage): map<string, Json> {
    map[
      "path" := JStr(path),
      "total_gb" := JInt(usage.totalGb),
      "used_gb" := JInt(usage.usedGb),
      "free_gb" := JInt(usage.freeGb),
      "percent" := JInt(usage.percent)]
  }

  function IoObject(io: DiskIo): Json {
    JObj(map["read_mb" := JInt(io.readMb), "write_mb" := JInt(io.writeMb)])
  }

  /** The disk report for `path`, given how the usage query for that path and
      the I/O-counter query turned out (the counters may be absent). */
  function DiskInfo(path: string, usage: Probe<DiskUsage>, io: Probe<Option<DiskIo>>)
    : (r: Result<map<string, Json>, HttpError>)
    ensures r.Failure? <==> usage.Raised? || io.Raised?
    ensures r.Failure? ==> r.error == HttpError(400, InvalidPathPrefix + path)
    ensures r.Success? ==> "path" in r.value && r.value["path"] == JStr(path)
    ensures r.Success? ==> ("io" in r.value <==> io.value.Some?)
    ensures r.Success? ==> r.value.Keys == UsageKeys + (if io.value.Some? then {"io"} else {})
    ensures r.Success? && io.value.Some? ==> r.value["io"] == IoObject(io.value.value)
    ensures r.Success? ==> forall key :: key in UsageKeys ==> r.value[key] == UsageFields(path, usage.value)[key]
  {
    if usage.Raised? || io.Raised? then
      Failure(HttpError(400, InvalidPathPrefix + path))
    else
      var base := UsageFields(path, usage.value);
      Success(if io.value.Some? then base["io" := IoObject(io.value.value)] else base)
  }

  /** `get_disk_info`: builds the usage record, then adds the `io` entry in
      place when counters are available. */
  method GetDiskInfo(path: string, usage: Probe<DiskUsage>, io: Probe<Option<DiskIo>>)
    returns (r: Result<map<string, Json>, HttpError>)
    ensures r == DiskInfo(path, usage, io)
  {
    if usage.Raised? || io.Raised? {
      return Failure(HttpError(400, InvalidPathPrefix + path));
    }
    var result := UsageFields(path, usage.value);
    if io.value.Some? {
      result := result["io" := IoObject(io.value.value)];
    }
    r := Success(result);
  }
}
