# DevOps API metrics core, modelled in Dafny

The repository is a small web API that reports host telemetry (CPU, memory,
disk, network, processes, uptime). Almost all of it reads operating-system
counters and rounds floats. This model covers the parts whose behaviour does
not depend on the operating system:

- **The top-process ranking** (`get_top_processes`). It scans the process
  enumeration and skips every process whose attribute read raises
  `NoSuchProcess` or `AccessDenied`. It reports a missing CPU or memory
  percentage as 0. It sorts the rows highest-CPU-first with Python's stable
  `sorted(..., reverse=True)`, then cuts the list with the slice `[:limit]`.
- **The process-list endpoint** (`get_processes`). It rejects `limit > 50`
  with a 400 error before the process table is read. Any other limit is
  accepted, and the response's `count` is the requested limit.
- **The disk report** (`get_disk_info`). It echoes the requested path. It
  adds the `io` entry only when I/O counters exist. It turns any failure
  into a 400 error whose detail is `"Invalid disk path: " + path`.
- **The aggregate response** (`get_all_metrics`). It always uses the disk
  path `"/"` and a process limit of 5, with one timestamp for the whole body.

Modules:

- `Wrappers` (wrappers.dfy) holds `Option`, `Result`, `Probe` and `HttpError`.
  `Probe` is the outcome of one library call: it returned a value or it raised.
- `Ranking` (ranking.dfy) holds the process rows and the collection loop
  (`GetTopProcesses`, a method with a loop invariant). It also holds the
  reference stable sort `SortDesc`, Python's slice end `SliceEnd`, the
  specification `TopProcesses` and the lemmas about them.
  `SortDescUnique` shows that any arrangement that is sorted highest-CPU-first
  and keeps each group of equal CPU values in enumeration order equals
  `SortDesc`. So the insertion sort used as the reference stands for Python's
  `sorted` whatever algorithm that uses.
- `Disk` (disk.dfy) holds the disk report. `GetDiskInfo` builds the record
  and then inserts the `io` key in place, as the source does. `DiskInfo` is
  the function that specifies it and that the aggregate response uses.
- `Api` (api.dfy) holds the limit guard (`GetProcesses`) and the aggregate
  response (`GetAllMetrics`).

The process table, the disk-usage result, the I/O-counter result, the
timestamp and the other metric sections are parameters. Percentages and
converted sizes are integers standing in for the rounded floats: hundredths
of a percent, of a gigabyte or of a megabyte.

Two points of the code's behaviour are easy to miss:

- The docstring of `get_processes` gives a maximum of 50 (app/main.py:249),
  and app/main.py:251 checks only `limit > 50`. So 0 gives an empty list,
  and a negative limit `-k` gives every ranked row except the last `k`, as
  Python's slice does. In both cases `count` is the requested limit.
- The I/O-counter query (app/main.py:75) sits in the same `try` as the
  disk-usage query (app/main.py:73-90). So a failure of that query is also
  reported as `"Invalid disk path: " + path`.

## Model

| member | source | states |
|---|---|---|
| `Ranking.ToInfo` | app/main.py:128-134 | A missing CPU or memory percentage is reported as 0. A present one is kept. pid, name and status are copied unchanged, even when missing. |
| `Ranking.Readable` | app/main.py:125-136 | The scan never yields more rows than the enumeration has entries. |
| `Ranking.ReadableAppend` | app/main.py:126-136 | The scan works entry by entry. Scanning two parts of the enumeration in turn yields the two parts' rows, concatenated in order. |
| `Ranking.ReadableSkipsFailure` | app/main.py:126-136 | A read raising `NoSuchProcess` or `AccessDenied` adds no row. The rows before and after it are all still collected. |
| `Ranking.ReadableMembers` | app/main.py:126-136 | A row is collected if and only if some successfully read process produced it. |
| `Ranking.SortDescPermutation` | app/main.py:137 | The sort is a permutation of the collected rows. |
| `Ranking.SortDescSorted` | app/main.py:137 | The sorted rows are non-increasing in `cpu_percent`. |
| `Ranking.SortDescStable` | app/main.py:137 | The sort is stable: rows with the same `cpu_percent` keep their enumeration order. |
| `Ranking.SortDescUnique` | app/main.py:137 | Sortedness and stability determine the result. Any arrangement with both properties equals the reference sort. |
| `Ranking.SliceEnd` | app/main.py:137 | The slice `[:limit]` never ends past the list's end. |
| `Ranking.GetTopProcesses` | app/main.py:123-137 | The collecting loop, sort and slice return exactly the specified top list. That list is sorted by CPU. It has at most as many rows as readable processes, and at most `limit` rows when `limit >= 0`. |
| `Ranking.TopLength` | app/main.py:137 | For `limit >= 0` the list has min(limit, readable) rows. A negative limit drops that many rows from the end, down to none. |
| `Ranking.TopSorted` | app/main.py:137 | The returned list is ordered non-increasing by `cpu_percent`. |
| `Ranking.TopStable` | app/main.py:137 | For each CPU value, the returned rows with that value are the first such rows in enumeration order. |
| `Ranking.TopFromReadProcesses` | app/main.py:126-137 | Every returned row was produced by a successfully read process. |
| `Ranking.TopOutranksRest` | app/main.py:137 | Every returned row uses at least as much CPU as every readable row the slice left out. |
| `Disk.DiskInfo` | app/main.py:71-90 | A failure of either query gives a 400 error with detail `"Invalid disk path: " + path`. Success echoes the path unchanged. The `io` key is present exactly when I/O counters are available, and then it carries them. The keys are exactly the usage keys, plus `io` when counters exist. |
| `Disk.GetDiskInfo` | app/main.py:71-90 | Building the record and then inserting `io` in place gives exactly the disk report `DiskInfo`. |
| `Api.GetProcesses` | app/main.py:243-258 | `limit > 50` gives the 400 error "Limit cannot exceed 50" whatever the process table holds. Any other limit succeeds, with `count` equal to the requested limit and the ranked top list. |
| `Api.ProcessesByLimit` | app/main.py:251-257 | A limit of 50 is accepted. Limits from 0 to 50 give min(limit, readable) rows, and 0 gives none. A negative limit gives all but the last abs(limit) ranked rows. `count` is always the requested limit. |
| `Api.DefaultLimitResponse` | app/main.py:244-257 | With the default limit of 10 the request succeeds. It returns at most 10 rows, sorted by CPU. |
| `Api.GetAllMetrics` | app/main.py:185-199 | The aggregate uses one timestamp. Its disk section reports path `"/"`. Its disk section is exactly the disk report for `"/"`, including `io` when counters exist. The system, CPU, memory and network sections are the values passed in. Its process list is the top list for limit 5. A disk failure makes the whole response the 400 error `"Invalid disk path: /"`. |
| `Api.MetricsTopProcesses` | app/main.py:198 | When the disk report succeeds, the aggregate lists min(5, readable) processes, sorted by CPU. |

## Left out

- The operating-system queries are left out as foreign calls. These are the process enumeration, disk usage, disk I/O counters, CPU, memory, network, boot time and the process id list. Their results are parameters of the model.
- Float division and rounding to two decimals are left out as floating-point numerics. This covers the conversions to GB and MB and the percentages. Values are integers already in the response's units.
- `get_cpu_info`, `get_memory_info` and `get_network_info` only read counters and round them. `get_system_info` reads platform names, the boot time (as an ISO string), the uptime against the clock and the process count. Their results enter the aggregate as opaque JSON values.
- Timestamps, their ISO formatting and the uptime subtraction are left out as clock reads. The timestamp is a parameter.
- Web-framework wiring is left out as HTTP plumbing. This covers app setup, CORS, routes, `/`, `/health`, `/system`, the single-section metric endpoints (including the timestamp wrapper of `/metrics/disk`), the 404/500 handlers, the startup banner and the server entry point.
- The aggregate response assumes the system, CPU, memory and network helpers succeed. An exception in one of them is framework behaviour, a 500 response, and is not modelled. The model also does not fix the order of these calls.
- The default argument `limit=5` of `get_top_processes` is not modelled. Every caller passes a limit explicitly.
- The default argument `path="/"` of `get_disk_info` is not modelled. Every caller passes a path explicitly (app/main.py:196, 230).
- CPU sampling windows and any concurrency are not modelled. The code takes no locks, and blocking while sampling is the library's behaviour.
