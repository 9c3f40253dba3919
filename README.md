# port-scanner-py, modelled in Dafny

This project models the sequential core of a small multithreaded TCP/UDP port
scanner. The scanner takes a target, an inclusive port range and a list of
protocols. It runs one task per port, and each task probes every configured
protocol for that port in order. A shared counter `COUNT` records the tasks
that returned; a task that raises does not add to it. The scanner then collects the open `(port, protocol)` pairs, sorts them
and prints them as a column-aligned table.

The socket probes are replaced by a given function
`probe(protocol, target, port): bool`. The worker pool is replaced by running
the tasks one after another. Everything that is computed from the probe
answers is modelled as the source computes it.

Modules, one per part of the source:

- `Results` (`results.dfy`) holds the `Result` datatype and the exceptions and
  exits the code can end in: `KeyError`, `invalid_args_exit`,
  `AssertionError`, and the `ValueError` that the worker pool raises at
  port_scanner.py:149 when the thread count is 0 or less.
- `Utils` (`utils.dfy`) models `utils.py` `ljust_all`. That is `str.ljust` on
  every string and `delimiter.join`, with either one width for all strings or a
  list of widths. It is all pure functions and lemmas.
- `Config` (`config.dfy`) models the shaping part of `get_args`. The inclusive
  `[START, END]` pair becomes `range(START, END + 1)`, and the protocol names
  are checked in lower case but stored as given. `GetArgs` is the appending
  loop.
- `Probing` (`probing.dfy`) models `scan_port` (a loop) and
  `_progress_decorator`. Class `Scanner` holds the counter `count`.
  `ScanPort` probes and then adds one, and `ScanPorts` runs one task per port.
- `Ordering` (`ordering.dfy`) models `sorted` on `(int, str)` tuples, which is
  Python's lexicographic order. It proves that the result is sorted, is a
  permutation of its input, and is the only sorted permutation.
- `Aggregation` (`aggregation.dfy`) models the result loop of `main`, which
  steps `ind` through the tasks in port order and extends `open_ports`. It
  proves membership, multiplicity and "exactly once".
- `Scan` (`scan.dfy`) models `main` from start to end (`RunScan`) and states
  what a whole scan promises.
- `Report` (`report.dfy`) models the progress bar string and the table widths.

The code behaves as follows in cases a reader might expect otherwise, and the model does the same:

- An unsupported protocol name ends the program through `exit(0)`, which is a
  success status, not a failure status.
- An empty port range (`END < START`) is not an error. No task is submitted,
  `COUNT` stays 0 and the table is empty.
- The default port range is 1 to 65537 (`[1, 65537]`), which gives 65537 tasks.
  It is not 1 to 65536.
- The thread count is not checked by the argument code. A count of 0 or less
  is accepted and then makes the worker pool raise ValueError before any
  task runs.
- Protocol names in the list are not required to be distinct. A name given
  twice is probed twice and listed twice.
- A protocol name is accepted case-insensitively but stored with its original
  case (see Findings).

## Model

| member | source | states |
|---|---|---|
| `Utils.LJust` | utils.py:11 | `s.ljust(width, fill)` is `max(len(s), width)` long, starts with `s`, is filled with `fill` after it, and is `s` itself when `s` is already as long as `width` (no truncation) |
| `Utils.Join` | utils.py:11 | `delimiter.join` of no pieces is `""`, and the join starts with the first piece |
| `Utils.JoinLength` | utils.py:11 | a joined string is the total length of the pieces plus one delimiter for each neighbouring pair |
| `Utils.JoinPieceAt` | utils.py:11 | piece `i` appears whole, in order, at its offset in the join, followed by the delimiter unless it is the last |
| `Utils.Padded` | utils.py:10-14 | one justified string per input, in the order of `strs`; string `i` is justified to the scalar width or to `width[i]` |
| `Utils.LJustAll` | utils.py:1-14 | fails with the AssertionError exactly when a width list's length differs from `len(strs)`; an empty `strs` gives `""` |
| `Utils.LJustAllLength` | utils.py:10-14 | with the default empty delimiter the output is as long as the sum of `max(len(strs[i]), width_i)` |
| `Utils.LJustAllCell` | utils.py:10-14 | cell `i` of the output keeps `strs[i]` as its prefix at its offset and is padded with `fill` up to its width |
| `Utils.LJustAllAligned` | utils.py:13-14 | when every string fits its column width, the row is `sum(widths)` long and string `i` starts at the sum of the earlier widths |
| `Config.PortRange` | port_scanner.py:107 | `range(START, END + 1)` holds `max(0, END - START + 1)` ports, the `i`-th being `START + i` |
| `Config.PortRangeMembers` | port_scanner.py:107 | a port is in the list if and only if `START <= port <= END` |
| `Config.PortRangeAscending` | port_scanner.py:107 | the port list is strictly ascending |
| `Config.DefaultPortRange` | port_scanner.py:97 | the default range `[1, 65537]` gives the 65537 ports 1..65537 |
| `Config.Lower` | port_scanner.py:115 | `str.lower` keeps the length and lowers each letter |
| `Config.LowerNormalizes` | port_scanner.py:115 | a lowered name holds no capital, lowering twice changes nothing more, and a name without capitals is unchanged |
| `Config.AcceptedIgnoresCase` | port_scanner.py:115 | two spellings that lower to the same name are accepted alike |
| `Config.MixedCaseSpellingsAccepted` | port_scanner.py:115 | `Tcp`, `uDP` and `TCP` pass the check; `sctp` and `tcp ` (with a trailing space) do not |
| `Config.CheckedProtocols` | port_scanner.py:113-117 | succeeds if and only if every name's lower case is supported; on success the list is the input unchanged, and otherwise the exit names the first rejected name |
| `Config.ShapedProtocols` | port_scanner.py:110-117 | an accepted protocol list is never empty and every name in it passes the check (the full contract is `Config.ShapedProtocolsSpec`) |
| `Config.ShapedArgs` | port_scanner.py:105-117 | the configuration is built exactly when the protocol list is accepted; it then holds `max(0, END - START + 1)` ports and a non-empty protocol list |
| `Config.ShapedProtocolsSpec` | port_scanner.py:110-117 | no names gives `['tcp', 'udp']`; otherwise it is accepted if and only if every lowered name is in `{'tcp', 'udp'}`, and names keep their input order, case and duplicates; a rejection names a rejected input name |
| `Config.GetArgs` | port_scanner.py:105-117 | the appending loop computes the port range, keeps target and thread count, and yields the shaped protocol list or the exit for the first rejected name |
| `Config.UpperCaseNameKept` | port_scanner.py:114-117 | `['TCP']` is accepted and stored as `['TCP']`, a name that is not supported in that case |
| `Config.LoweredProtocolsSupported` | port_scanner.py:114-117 | with the names lowered, every stored name is supported, and the input order and duplicates are kept |
| `Config.LoweredProtocols` | port_scanner.py:114-117 | the corrected shaping accepts exactly what the original accepts, and every name it stores is a supported name |
| `Config.LoweredArgs` | port_scanner.py:105-117 | the corrected configuration is built exactly when the original is, with the same port range and only supported protocol names |
| `Probing.ProbeAll` | port_scanner.py:82-85 | `scan_port` returns one boolean per protocol, element `i` being the probe of `protocols[i]`, if and only if every name is a registry key; otherwise it raises the KeyError of the first missing name |
| `Probing.RunProbes` | port_scanner.py:82-85 | the appending loop computes exactly `ProbeAll` |
| `Probing.Tasks` | port_scanner.py:152-153 | one task result per port, in port order, each being `scan_port` of that port |
| `Probing.Scanner.constructor` | port_scanner.py:134 | `COUNT` starts at 0 |
| `Probing.Scanner.ScanPort` | port_scanner.py:61-69 | the decorated call returns `scan_port`'s result and raises `COUNT` by exactly one after the probes; a call that raises leaves `COUNT` as it was; nothing else changes |
| `Probing.Scanner.ScanPorts` | port_scanner.py:152-153 | one task per port, and `COUNT` grows by the number of ports (never more) when every protocol is a registry key, and by 0 otherwise |
| `Ordering.Insert` | port_scanner.py:173 | inserting adds exactly one copy of the element |
| `Ordering.StrLe` | port_scanner.py:173 | Python's string order: a prefix comes no later than the string it begins |
| `Ordering.PairLe` | port_scanner.py:173 | Python's tuple order: a smaller port always comes first, whatever the protocol |
| `Ordering.Sort` | port_scanner.py:173 | `sorted` returns a permutation of its input; sortedness is `Ordering.SortCorrect` |
| `Ordering.SortCorrect` | port_scanner.py:173 | `sorted(open_ports)` is non-decreasing in (port, protocol) lexicographic order and a permutation of its input |
| `Ordering.SortedUnique` | port_scanner.py:173 | two sorted lists with the same elements are equal |
| `Ordering.SortOrderIndependent` | port_scanner.py:173 | the sorted list depends only on which pairs were collected, not on the order they were collected in |
| `Aggregation.Collect` | port_scanner.py:165-166 | reading the tasks in order gives every value if and only if no task raised, and otherwise the exception of the first task, in port order, that raised |
| `Aggregation.Aggregate` | port_scanner.py:164-168 | the `ind` loop yields the pairs of all result vectors in port order, or re-raises the first task's exception |
| `Aggregation.Row` | port_scanner.py:167 | a port's pairs all carry that port and are at most one per result entry (membership is `Aggregation.RowMembers`) |
| `Aggregation.OpenPairs` | port_scanner.py:164-168 | every collected pair carries one of the scanned ports, and there are at most `len(ports) * len(protocols)` of them (membership and multiplicity are `Aggregation.OpenPairsMembers` and `Aggregation.OpenPairsCount`) |
| `Aggregation.RowMembers` | port_scanner.py:167 | `(p, q)` is in a port's pairs if and only if `p` is the port and the vector is true at an index whose protocol is `q` |
| `Aggregation.OpenPairsMembers` | port_scanner.py:164-168 | a pair is collected if and only if some port's vector is true at an index carrying it |
| `Aggregation.OpenPairsCount` | port_scanner.py:164-168 | each true entry contributes one copy of its pair |
| `Aggregation.ExactlyOnce` | port_scanner.py:164-168 | with distinct ports and protocols, a true entry gives its pair exactly once and a false one never |
| `Aggregation.DuplicateProtocolDuplicatesPair` | port_scanner.py:167 | a protocol named twice gives its open pair twice |
| `Scan.CollectTasks` | port_scanner.py:152-166 | the task results read back are the probe answers, or the KeyError of the first missing name when there is a port |
| `Scan.RunScan` | port_scanner.py:147-173 | the whole scan yields the sorted open pairs, the KeyError, or the ValueError of a thread count of 0 or less; `COUNT` ends at the number of ports, or at 0 when the pool was refused or every task raised |
| `Scan.ScanOutcome` | port_scanner.py:149-173 | a scan ends in a ValueError exactly when the thread count is 0 or less; otherwise it ends in a KeyError or in a list that is sorted in (port, protocol) order (the rest is `Scan.ScanOutcomeSpec`) |
| `Scan.ScanOutcomeSpec` | port_scanner.py:149-173 | a scan fails exactly when the thread count is 0 or less (the ValueError) or a port is to be scanned with a name missing from the registry (the KeyError of such a name); otherwise the list is sorted, is a permutation of the collected pairs, and holds `(port, protocol)` if and only if the probe said open |
| `Scan.ListedIffOpen` | port_scanner.py:163-173 | `(ports[k], protocols[i])` is in the final list if and only if the probe of `protocols[i]` on `ports[k]` said open |
| `Scan.ScanOutcomeSound` | port_scanner.py:163-168 | every listed pair was confirmed open by a probe |
| `Scan.ScanListsOnce` | port_scanner.py:163-173 | over the `get_args` port range, with distinct protocols, an open pair is listed exactly once and a closed one never |
| `Scan.OnlyPort22Open` | port_scanner.py:163-173 | ports 20-22, TCP only, only 22 answering: the list is `[(22, 'tcp')]` |
| `Scan.UpperCaseProtocolFails` | port_scanner.py:84 | with `--protocols TCP` the configuration is accepted and every scan of a non-empty range with at least one thread ends in `KeyError('TCP')` (with none, in the pool's ValueError) |
| `Scan.LoweredScanSucceeds` | port_scanner.py:115-117 | with the names stored in lower case, every accepted configuration succeeds exactly when it has at least one thread |
| `Report.BarLayout` | port_scanner.py:45 | for `completed` in 0..100 the bar is 102 characters: the edges, `completed` done cells, then the rest to do |
| `Report.BarOutOfRange` | port_scanner.py:45 | above 100 the bar holds `completed` done cells and none to do; below 0 it holds `100 - completed` cells to do and no done cell |
| `Report.Bar` | port_scanner.py:45 | the bar is `2 + max(0, completed) + max(0, 100 - completed)` characters between and including its two edge characters |
| `Report.HeaderWidths` | port_scanner.py:175 | one width per column, each wider than the column's header |
| `Report.TableWidths` | port_scanner.py:174-175 | the widths of PORT, PROTOCOL and SERVICE are `[8, 12, 11]` |
| `Report.TableRowLayout` | port_scanner.py:176-178 | a row whose cells fit their widths is 31 characters, with the cells starting at columns 0, 8 and 20 |
| `Report.HeaderRow` | port_scanner.py:176 | the header row is 31 characters wide |

## Left out

- The socket probes `handle_tcp` and `handle_udp`, their timeouts, and `get_service` (socket I/O). A probe is a given total function. Exceptions inside the probes are caught by the handlers themselves.
- `ThreadPoolExecutor`, `LOCK`, the `e.running()` polling loop with `sleep(0.1)`, `KeyboardInterrupt` and `executor.shutdown`. These are concurrency and cancellation. The tasks run one after another, so the model does not capture interleaving or a scan cancelled part-way.
- `keyboard.is_pressed`, every `print`, and `time()` (I/O and the clock). The progress line at port_scanner.py:45 ends in a newline that is printed with it. `Report.Bar` is the bar without that newline.
- The percentage `int(100 * (COUNT / len(ports)))` at port_scanner.py:43 uses floating point. `Report.Bar` takes the integer `completed` as its input instead.
- argparse itself (port_scanner.py:94-104) and the process exit. The parsed values are the input of `Config.GetArgs`, and an exit is an `Err` result.
- The thread count is used only for the check the worker pool makes at port_scanner.py:149. A count of 0 or less raises ValueError before any task is submitted; this is modelled by `Scan.ScanOutcome` and `Scan.RunScan`. A positive count does not change the result, because the tasks run one after another.
- `Config.Lower` lowers ASCII letters only, while Python's `str.lower` covers all of Unicode. No other character lowercases to a letter of `tcp` or `udp`, so acceptance is unchanged.
- `Utils.LJust` takes the fill as one character. Python raises a TypeError for a fill string of any other length, and for a width that is neither an int nor a list. Neither case is modelled.
- `Ordering.Sort` is an insertion sort standing for Python's sort. `Ordering.SortedUnique` shows that the result is the same.
- `Report.HeaderWidths`: its own contract states only that each column is wider than its header. The exact widths `[8, 12, 11]` are stated by `Report.TableWidths`.

## Findings

| source | as written | input that shows it | evidently intended | confidence | as-written member | corrected member |
|---|---|---|---|---|---|---|
| port_scanner.py:115-117 | the check lowers the name but `ARGS['protocols']` stores it unchanged; `scan_port` then looks up `PROTOCOL_HANDLING['TCP']` (line 84), which raises KeyError in every task; no task adds to `COUNT` and `res[ind].result()` re-raises in `main` | `--protocols TCP` with any non-empty port range and a thread count of at least 1 | store `protocol.lower()` so every stored name is a registry key | high (the help text itself spells the names `TCP, UDP`); not executed | `Scan.UpperCaseProtocolFails` (with `Config.UpperCaseNameKept`) | `Scan.LoweredScanSucceeds` on `Config.LoweredArgs` (with `Config.LoweredProtocolsSupported`) |
