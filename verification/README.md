# skynet Zabbix controller — verified model

This project models the deterministic core of `skynet/zabbix.py`, skynet's
bridge to Zabbix and OpenStack. It covers:

- the process-wide caches and the rules that update them (`HOST_CACHED`,
  `VMS_CACHED`, `HYPERVISOR_DETAILS`, `clear`, `create_vms_total`, the lazy
  refill in `get_vms_top_metric`);
- the check of a Zabbix sender/trapper reply (the `ZBXD\x01` signature,
  the 8-byte length block, the body);
- the request built by `socket_to_zabbix`, the hostgroup list parsing,
  the login reply check and the `limit` of a history request;
- the host, instance and alarm summary counters;
- the validity gate on items and the memory sums of `create_memory_usage`;
- `_get_item_values` and the host top-N rankings;
- the VM top-N ranking of `get_vms_top_metric`.

Every collaborator becomes an input:

- A Zabbix JSON-RPC reply, a nova instance listing, a ceilometer alarm
  listing and a metering statistics answer are values.
- A call that raises is `None`, or a dedicated variant.
- The bytes received on the sender socket are one sequence, read in three
  blocks (signature, length block, body); see `Sender.ParseReply` under
  "Left out" for what this assumes of `recv`.
- Python 2 iterates a dict in an order of its own. Where `_get_item_values`
  iterates `items_map.keys()`, the model picks the next key
  nondeterministically and exposes the order it took as a ghost
  out-parameter (`HostMetrics.ItemValues`, `HostMetrics.CreateHostsTopUsage`).
  `VmCache.Items` returns the `items()` pairs themselves in an unspecified
  order, and `get_vms_top_metric` exposes only their sorted ranking.

Modules:

- `Wrappers` — `Option`.
- `Json` — a JSON value.
- `Sender` — reply parsing and the sender request.
- `Api` — `str.split`/`str.strip`, hostgroups, login check, history limit.
- `Counting` — counting labels that fall in a set.
- `Summaries` — host, instance and alarm counters.
- `Ranking` — Python's stable sort by value, ascending or descending, and the
  `s[:n]` slice.
- `HostMetrics` — validity gate, memory usage, item values, host top-N.
- `VmCache` — the `Caches` class holding the three stores, with `Clear`,
  `CreateVmsTotal` and `GetVmsTopMetric`, and the VM top-N ranking.

Two points of the code's own behaviour:

- The body length is read with `struct.unpack('i', ...)`, a signed 32-bit
  integer in native byte order. It is modelled as little-endian signed. A
  negative length makes `recv` raise `ValueError`, which the socket handler
  does not catch (`Reply.Raised`).
- A reply that ends before the declared body length is not detected: the code
  hands the short bytes on (`Sender.ShortReadIsTruncated`).

## Model

| member | source | states |
|---|---|---|
| Sender.Int32LE | skynet/zabbix.py:83-84 | the first four bytes of the length block read as a signed 32-bit little-endian integer: within the int32 range, negative exactly when the top bit of the last byte is set, and the unsigned value otherwise |
| Sender.ParseReply | skynet/zabbix.py:75-88 | a reply whose first five bytes are not `ZBXD\x01` is rejected, and a short signature counts as a mismatch; with the signature, a missing length block or a negative length raises; otherwise the body is a prefix of the bytes after the 13-byte header, at most the declared length, and shorter only when the stream ends first |
| Sender.FramedReplyYieldsBody | skynet/zabbix.py:75-88 | a stream that frames a body yields exactly that body, whatever follows it: signature, declared length equal to the body length, any four bytes, then the body |
| Sender.BadMagicReadsNothingMore | skynet/zabbix.py:75-79 | with a wrong five-byte signature the outcome is rejection, whatever bytes follow |
| Sender.PaddingIgnored | skynet/zabbix.py:82-84 | bytes 4-7 of the 8-byte length block never change the outcome |
| Sender.ShortReadIsTruncated | skynet/zabbix.py:87 | when the stream ends before the declared body, the body returned is shorter than declared and is not refused |
| Sender.SenderRequest | skynet/zabbix.py:100-106 | the request always has `"request": "sender data"`, has a `data` list exactly when the payload is a dict (sent as a one-element list) or a list (sent as is), and has no other keys |
| Api.Split | skynet/zabbix.py:163 | `str.split(sep)` yields at least one piece and no piece contains the separator |
| Api.JoinSplit | skynet/zabbix.py:163 | joining the pieces of a split with the separator gives back the original string |
| Api.SplitJoin | skynet/zabbix.py:163 | splitting a join of separator-free pieces gives back the pieces |
| Api.SplitCount | skynet/zabbix.py:163 | a split yields one more piece than there are separators |
| Api.StripLeft | skynet/zabbix.py:163 | `str.lstrip()`: a suffix of the input, everything removed is whitespace, and the result is empty or starts with a non-whitespace character |
| Api.StripRight | skynet/zabbix.py:163 | `str.rstrip()`: a prefix of the input, everything removed is whitespace, and the result is empty or ends with a non-whitespace character |
| Api.Strip | skynet/zabbix.py:163 | `str.strip()` gives a string no longer than the input that is empty or starts and ends with a non-whitespace character |
| Api.StripIsInfix | skynet/zabbix.py:163 | the stripped string is the contiguous infix of the input starting after the leading whitespace |
| Api.StripRemovesWhitespace | skynet/zabbix.py:163 | everything strip removes, before and after that infix, is whitespace |
| Api.StripIdempotent | skynet/zabbix.py:163 | stripping twice is stripping once |
| Api.ParseHostgroups | skynet/zabbix.py:162-163 | one group per comma-separated piece of the setting (commas + 1 of them), each the stripped piece: comma-free, with no surrounding whitespace |
| Api.GetZabbixAuth | skynet/zabbix.py:130-135 | an `error` member rejects the login whatever else the reply holds; otherwise a `result` member is the token; with neither the lookup fails |
| Api.HistoryLimit | skynet/zabbix.py:226-227 | the `limit` is the number of requested ids: the length of a list, 1 for anything else |
| Counting.CountIn | skynet/zabbix.py:633-639 | a count of labels in a set never exceeds the number of labels |
| Counting.CountInIsPositions | skynet/zabbix.py:633-639 | the count equals the number of positions whose label is in the set |
| Counting.CountInDisjoint | skynet/zabbix.py:447-458 | counts over disjoint label sets add up to the count over their union, so exclusive `elif` buckets never double-count |
| Counting.CountInFull | skynet/zabbix.py:447-458 | the count equals the number of labels exactly when every label is in the set |
| Counting.UnwantedAddsNothing | skynet/zabbix.py:447-458 | appending a label outside the set leaves the count unchanged |
| Summaries.IsActiveHost | skynet/zabbix.py:257 | the active-host rule: status `"0"` and an empty error; its properties are CountActiveHostsIsPositions' |
| Summaries.CountActiveHosts | skynet/zabbix.py:255-258 | the active host count never exceeds the number of hosts |
| Summaries.CountActiveHostsIsPositions | skynet/zabbix.py:255-258 | the active count is the number of hosts with status `"0"` and an empty error |
| Summaries.CreateHostTotal | skynet/zabbix.py:236-262 | `total` is the length of the result, `active` counts exactly the active hosts, `off = total - active` and `0 <= active <= total`; a raising call or an `error` reply gives zeros |
| Summaries.Statuses | skynet/zabbix.py:447-458 | the status labels of the instances, one per instance, in listing order |
| Summaries.ActiveIds | skynet/zabbix.py:448-450 | `active_vms` holds one id per ACTIVE instance, and an id is in it exactly when an ACTIVE instance carries it |
| Summaries.VmCountsOf | skynet/zabbix.py:444-468 | each bucket counts exactly the instances with its label; the buckets sum to at most the total, and to the total exactly when every status is ACTIVE, ERROR, SHUTOFF or SUSPENDED |
| Summaries.UnlistedStatusCountsOnlyTotal | skynet/zabbix.py:447-458 | an instance with a status outside the four labels raises only the total |
| Summaries.States | skynet/zabbix.py:633-639 | the alarm states, one per alarm, in listing order |
| Summaries.CreateAlarmsTotal | skynet/zabbix.py:615-645 | each bucket counts exactly the alarms in its state; the buckets sum to at most the total, and to the total exactly when every state is one of the three; a raising listing gives zeros |
| Ranking.Insert | skynet/zabbix.py:363-364 | inserting a pair adds exactly that pair, as a multiset |
| Ranking.InsertMembers | skynet/zabbix.py:363-364 | an inserted sequence holds the new pair and the old pairs, nothing else |
| Ranking.ConsSorted | skynet/zabbix.py:363-364 | a pair no later than the head of an ordered sequence can go in front |
| Ranking.InsertSorted | skynet/zabbix.py:363-364 | inserting into an ordered sequence keeps it ordered |
| Ranking.SortBy | skynet/zabbix.py:363-364 | sorting by value gives an ordered permutation of the input, ascending or descending |
| Ranking.Prefix | skynet/zabbix.py:364 | `s[:n]` is a prefix of `s`: `n` elements for `0 <= n <= len`, all of `s` beyond, and `len + n` (at least 0) for negative `n` |
| Ranking.KeptBeforeDropped | skynet/zabbix.py:362-364 | in an ordered sequence every pair kept by a prefix is no later than every pair dropped |
| HostMetrics.Fresh | skynet/zabbix.py:268 | the validity gate, `lastvalue > 0` and `prevvalue > 0`, shared with lines 343-344; its properties are GatedIds', ItemHostsKeys' and InvalidItemIgnored' |
| HostMetrics.GatedIds | skynet/zabbix.py:266-269 | the gated ids are at most as many as the items; an id is in the list exactly when an item with `lastvalue > 0` and `prevvalue > 0` carries it |
| HostMetrics.GatedIdsAppend | skynet/zabbix.py:266-269 | gating a concatenation gates each part in turn |
| HostMetrics.HistorySum | skynet/zabbix.py:270-273 | the sum exists exactly when every gated id has a history row |
| HostMetrics.SumGatedHistory | skynet/zabbix.py:265-274 | the nested `_get` returns the history sum over the gated ids, or fails when a row is missing |
| HostMetrics.InvalidItemIgnored | skynet/zabbix.py:268 | an item failing the gate never changes the sum, wherever it stands in the listing |
| HostMetrics.CreateMemoryUsage | skynet/zabbix.py:264-301 | with both gated sums and a nonzero total, the result reports them with `used * total = total - available`; a failure or a zero total gives `{0, 0, 0.0}` |
| HostMetrics.ItemHosts | skynet/zabbix.py:341-345 | `items_map` after the first loop of `_get_item_values`, a later gated item overwriting an earlier one with the same id; its properties are ItemHostsKeys' and ItemHostsLastWins' |
| HostMetrics.ItemHostsKeys | skynet/zabbix.py:341-345 | `items_map` has exactly the ids of the gated items as keys |
| HostMetrics.ItemHostsLastWins | skynet/zabbix.py:341-345 | the host recorded for an id is that of the last gated item with the id |
| HostMetrics.BuildItemsMap | skynet/zabbix.py:341-345 | the first loop of `_get_item_values` builds `items_map` |
| HostMetrics.ItemValues | skynet/zabbix.py:340-352 | it succeeds exactly when every mapped id has a history row; it then returns one `(host, value)` pair per distinct gated id, in the order the keys were visited, each with the row's value or the default 0.0 |
| HostMetrics.SelectTop | skynet/zabbix.py:362-369 | the pairs kept for the lookup: the ascending sort, cut to `top` when there are more candidates; its properties are SelectTopKeepsSmallest's |
| HostMetrics.SelectTopKeepsSmallest | skynet/zabbix.py:362-369 | with more than `top` candidates exactly `top` are kept, each no larger than every dropped one; otherwise all are kept; the kept ones are sorted ascending |
| HostMetrics.UsageByHost | skynet/zabbix.py:370-373 | `hostid_value_map` after the loop over the kept pairs, each assignment overwriting the previous one for the same host; its properties are UsageByHostFrom's and UsageByHostLastWins' |
| HostMetrics.UsageWitness | skynet/zabbix.py:370-373 | every mapped host has a last kept pair for it, and its value is 100 - raw of that pair |
| HostMetrics.UsageByHostFrom | skynet/zabbix.py:370-373 | `hostid_value_map` has exactly a key per kept host, each mapped to 100 - raw of the last kept pair for that host |
| HostMetrics.UsageByHostLastWins | skynet/zabbix.py:370-373 | the last kept pair for a host sets the host's value: 100 - its raw value |
| HostMetrics.Render | skynet/zabbix.py:376-377 | one entry per host returned by the lookup |
| HostMetrics.AllKept | skynet/zabbix.py:377 | every host the lookup returned is a key of `hostid_value_map`, so the comprehension does not raise KeyError; its properties are RankHosts' and RenderedFromKept' |
| HostMetrics.RenderedFromKept | skynet/zabbix.py:376-379 | rendered entry `j` is the name of returned host `j` with 100 - raw of the last kept pair for that same host |
| HostMetrics.BuildUsageMap | skynet/zabbix.py:372-373 | the loop builds `hostid_value_map` |
| HostMetrics.RankHosts | skynet/zabbix.py:362-380 | with a lookup that returned only kept hosts, an ascending permutation of the rendering: one entry per returned host, carrying its name and 100 - raw of the last kept pair for it; otherwise `[]` |
| HostMetrics.CreateHostsTopUsage | skynet/zabbix.py:354-422 | a failed listing or a missing history row gives `[]`; otherwise the candidates are one `(host, value)` pair per distinct gated item, in a duplicate-free visiting order of the item ids, and the result is their ranking as in RankHosts |
| VmCache.AddName | skynet/zabbix.py:450-453 | one step of the loop adds the id of an ACTIVE instance with its name, and only when the id is absent; existing entries are kept |
| VmCache.AddActiveNames | skynet/zabbix.py:449-453 | the name loop of `create_vms_total` over the listing, one AddName step per instance; its properties are the three AddActiveNames lemmas' |
| VmCache.AddActiveNamesKeys | skynet/zabbix.py:450-453 | after the loop the keys are the old keys plus the ACTIVE ids |
| VmCache.AddActiveNamesKeepsExisting | skynet/zabbix.py:450-453 | an entry cached before the listing is never overwritten |
| VmCache.AddActiveNamesFirstWins | skynet/zabbix.py:450-453 | a new id gets the name of the first ACTIVE instance carrying it |
| VmCache.Truthy | skynet/zabbix.py:460 | the truth value `not VMS_CACHED.get("ACTIVE_VMS")` tests: a non-empty name or a non-empty id list; its properties are MarkActive's |
| VmCache.MarkActive | skynet/zabbix.py:460-461 | `ACTIVE_VMS` is set to the active id list only when it is missing or falsy; otherwise the cache is unchanged; either way the key is present |
| VmCache.Names | skynet/zabbix.py:551-554 | the refill caches every instance id, of any status |
| VmCache.Refill | skynet/zabbix.py:549-555 | after a refill `ACTIVE_VMS` holds the active ids, and the keys are exactly that key and the instance ids |
| VmCache.NamesLastWins | skynet/zabbix.py:551-554 | a refilled id names the last instance listed with it |
| VmCache.RefillLastWins | skynet/zabbix.py:549-555 | after the refill, an instance id other than `ACTIVE_VMS` names the last instance listed with it |
| VmCache.FirstSamples | skynet/zabbix.py:572-575 | `cache_result` has a key per resource id in the statistics |
| VmCache.FirstSampleWins | skynet/zabbix.py:572-575 | only the first statistic for a resource counts |
| VmCache.CollectFirstSamples | skynet/zabbix.py:572-575 | the loop builds `cache_result` |
| VmCache.Items | skynet/zabbix.py:577 | `items()` gives one pair per key with its value, in some order |
| VmCache.NameOf | skynet/zabbix.py:587-597 | the `VMS_CACHED[rsc[0]]` lookup: a cached name, or a miss when the id is absent or is `ACTIVE_VMS`, whose list cannot be a dict key; its properties are TakeNamedIsPrefix', NameAll' and SelectVmsProperties' |
| VmCache.Named | skynet/zabbix.py:583-591 | the ranked pairs whose ids have a cached name, renamed, in ranking order, never more than the ranked pairs; TakeNamedIsPrefix and NamedAllNamed state what it is for |
| VmCache.NamedAllNamed | skynet/zabbix.py:583-597 | with every ranked id named, the named sequence is the one the other branch builds |
| VmCache.TakeNamed | skynet/zabbix.py:583-591 | the breaking loop as a function of the ranking and the remaining budget; its properties are the TakeNamed lemmas' |
| VmCache.TakeNamedIsPrefix | skynet/zabbix.py:583-591 | the breaking loop keeps exactly the first `top` named entries (all of them when fewer), so an unnamed id takes no slot |
| VmCache.TakeNamedLength | skynet/zabbix.py:583-591 | the breaking loop takes at most `top` entries, and none when `top <= 0` |
| VmCache.TakeNamedFull | skynet/zabbix.py:583-591 | when every ranked id has a name, it takes exactly `top` entries |
| VmCache.TakeNamedFrom | skynet/zabbix.py:583-591 | every entry taken is the cached name and the average of a ranked id; unnamed ids are skipped |
| VmCache.TakeNamedSorted | skynet/zabbix.py:583-591 | the taken entries keep the descending order |
| VmCache.PickNamed | skynet/zabbix.py:583-591 | the loop with its `break` computes the first `top` named entries of the ranking |
| VmCache.NameAll | skynet/zabbix.py:592-597 | with every ranked id named, one entry per ranked pair, in order; a single unnamed id makes the result `[]` |
| VmCache.SelectVms | skynet/zabbix.py:582-598 | the answer for a ranking: the breaking loop with more than `top` candidates, the naming comprehension otherwise; its properties are SelectVmsProperties' |
| VmCache.SelectVmsProperties | skynet/zabbix.py:576-597 | with more than `top` candidates, the first `top` named entries in ranking order, an unnamed id taking no slot; with `top` or fewer, every candidate renamed when all are named and `[]` when one name is missing; the answer is sorted descending by average; each entry is the cached name and first average of a resource |
| VmCache.Cleared | skynet/zabbix.py:31-35 | clearing always empties `VMS_CACHED` and `HYPERVISOR_DETAILS`, and empties `HOST_CACHED` only for a full clear |
| VmCache.ClearIdempotent | skynet/zabbix.py:31-35 | clearing twice is clearing once; a partial clear after a full one changes nothing |
| VmCache.Caches.constructor | skynet/zabbix.py:19-21 | the three stores start empty |
| VmCache.Caches.Clear | skynet/zabbix.py:31-35 | `clear(is_all)` leaves the state `Cleared` describes |
| VmCache.Caches.CreateVmsTotal | skynet/zabbix.py:429-468 | the counts are those of VmCountsOf; the cache gains the names of new ACTIVE ids and `ACTIVE_VMS` when it was unset; a raising listing gives zeros and changes nothing; `HOST_CACHED` and `HYPERVISOR_DETAILS` are untouched |
| VmCache.Caches.RefillFrom | skynet/zabbix.py:549-555 | an empty `VMS_CACHED` is refilled from the listing |
| VmCache.Caches.GetVmsTopMetric | skynet/zabbix.py:540-607 | the cache is refilled only when empty. A raising listing then gives `[]` and an empty cache. The `ACTIVE_VMS` lookup cannot fail. A raising statistics query gives `[]`. Otherwise the candidates are the first averages, sorted descending, and the answer is SelectVms of them |

## Left out

- Sockets: connect, send, timeouts, `close`. Only the check on the bytes received is modelled.
- `set_proxy_head`, `json.dumps` and `json.loads` are opaque library calls. No framed-request encoder exists in the source, so there is no encode/decode round trip.
- `call_zabbix_api` (urllib2) and the JSON-RPC payloads are network I/O. Their replies are inputs.
- The OpenStack clients and `mongo_handler.get_meter_statistics` are foreign collaborators. Their answers are input sequences.
- `get_openstack_hostgroups` beyond the split and strip. The hostgroup query and the `error` logging are JSON-RPC I/O. An exception there, outside the `try` of `create_host_total`, propagates and is not modelled.
- `is_active` only wraps `get_zabbix_auth` in a try. The auth check itself is modelled.
- `create_cpu_util` is floating-point averaging. Its fallback map uses the key `used_ratio` and its success map `used_radio`.
- `create_vms_memory_usage` and `create_vms_vcpu_usage` depend on `utils.calculate_items_usage`, and `_get_hypervisor_list_details` fills `HYPERVISOR_DETAILS`. `utils` is not part of this model.
- The `utils.retry` decorator on `get_zbx_handler` is not part of this model.
- Nothing in the file writes `HOST_CACHED`; only `clear` touches it.
- `round(..., 2)` and `round(..., 4)`, and the `int()`/`float()` parsing of item values. Values are `real` or `int`, without rounding.
- The `datetime` window of the metering query, configuration reads and logging. `top` is an input: the value `get_vms_top_metric` reads from the configuration.
- `create_vms_top_memory_usage` and `create_vms_top_vcpu_usage` only call `get_vms_top_metric` with fixed arguments.
- Ranking.SortBy: stability is not stated. The definition keeps equal values in input order, since each pair is inserted in front of the later pairs equal to it, but only sortedness and the permutation are proved.
- HostMetrics.CreateHostsTopUsage: the memory and CPU variants differ only in where `100 - raw` is computed and how it is rounded. Both are modelled by one method.
- Sender.Int32LE: native byte order is fixed as little-endian.
- Sender.ParseReply: assumes each `recv(n, MSG_WAITALL)` returns `n` bytes unless the stream ends. The socket has a timeout (line 71), so CPython 2 reads it in non-blocking mode, and a `recv` may return only the bytes that have arrived so far. A well-formed reply that arrives in pieces can then be rejected or truncated. FramedReplyYieldsBody holds only when each block arrives whole.
- HostMetrics.GatedIds: item values are `real`, which fits the `float()` gate of `_get_item_values` (lines 343-344). The memory gate at line 268 uses `int()`, which raises on a fractional string such as `"0.4"`; that raise is not modelled, and such an item is gated by its sign.
