# LanWatch scanner, modelled in Dafny

LanWatch's `scanner.py` takes a timestamped inventory of a home LAN. It
creates two sqlite tables (`scans` and `hosts`) if they are missing and
inserts one scan row. It then runs an nmap ping sweep of `192.168.1.0/24`
and keeps the hosts whose state is `"up"`. It joins those addresses with
single spaces and runs a detail sweep (`-O --osscan-guess`) on that string.
For every host of the detail sweep it works out `mac`, `dns`, `os` and
`uptime`, and inserts a host row carrying the scan's id. It commits once, at
the end.

The model has one module per concern:

- `Wrappers`: the `Option` type.
- `Records`: the nmap host record, the `hosts` row and the sweep constants.
- `Decimal`: `int()` on uptime text.
- `Liveness`: the live-host filter and collecting loop, `' '.join`, and how a target string reads back.
- `Resolver`: the per-host row fields, and `friendly_name` computed by `FriendlyName` through its three steps in the script's overwrite order (`VendorStep`, `NetbiosStep`, `MdnsStep`).
- `ScanStore`: a `Database` class holding the tables, the rows visible through the cursor, the durable snapshot and a ghost log of commits.
- `Scanner`: the whole run, `RunScan`, and the host loop `RecordHosts`.

Every external call is a parameter:

- The nmap engine is a function `(hosts, arguments) -> Option<seq<RawHost>>`. `None` means the call raised, which ends the script before the commit.
- The MAC-vendor lookup, the `nbtstat` and `nmblookup` queries and `socket.gethostbyaddr` are functions from the MAC or IP to `Option<string>`, bundled as `Lookups`. `None` means the lookup raised or found nothing.
- `datetime.now()` is an opaque `Timestamp` argument.

Two behaviours of the code are reproduced as written:

- **A non-empty nmap host name always wins.** `friendly_name` only backfills an empty `dns`, and only `dns` is stored.
- **The NetBIOS step is dead.** The loop rebinds the name `os` to `None`, so `os.name` raises `AttributeError`, and the bare `except` swallows it. `NetbiosStep` models the binding explicitly. `NetbiosOutcomeIrrelevant` proves that neither NetBIOS command ever affects the stored row.

Four more things the script does that one might not expect, also reproduced as written:

- The scan row is inserted before either sweep runs.
- The detail sweep is called even with an empty target string. There is no guard.
- An accepted mDNS name does not replace a non-empty nmap host name in `dns` (`HostnameWinsOverMdnsExample`).
- There is no per-host failure isolation around the inserts.

## Model

| member | source | states |
|---|---|---|
| `Liveness.UpHosts` | scanner.py:56-58 | the live hosts, in sweep order; never more than there were swept hosts |
| `Liveness.CollectLiveHosts` | scanner.py:49-58 | the appending loop returns exactly `UpHosts` of the ping sweep |
| `Liveness.UpHostsMembership` | scanner.py:56-58 | an address is live iff some swept host with that address has state `"up"` |
| `Liveness.UpHostsAppend` | scanner.py:56-58 | filtering preserves sweep order: the filter of a concatenation is the concatenation of the filters |
| `Liveness.UpHostsAllUp` | scanner.py:56-58 | when every host is up, every address is kept, position by position |
| `Liveness.JoinSpaces` | scanner.py:60 | `' '.join`: `""` for no parts; otherwise it starts with the first part and is as long as all parts plus one space between each neighbouring pair |
| `Liveness.Tokens` | scanner.py:63 | the model's reading of a target string as space-separated words yields only non-empty, space-free words |
| `Liveness.TokensOfJoin` | scanner.py:60 | reading the space-joined string back as words gives the joined list, for non-empty space-free parts |
| `Liveness.NoLiveHostsEmptyTarget` | scanner.py:60-63 | with no live host the target string is `""` |
| `Scanner.DetailTarget` | scanner.py:56-63 | the detail-sweep target is `""` when no host is up |
| `Scanner.DetailTargetReadsBack` | scanner.py:56-63 | read back as space-separated targets, the detail-sweep target is exactly the live hosts in sweep order, when addresses are single words |
| `Decimal.ParseDecimal` | scanner.py:121 | `int()` on a decimal numeral of `k` digits gives a value below `10^k` |
| `Decimal.ParseDecimalString` | scanner.py:121 | `int()` inverts the decimal rendering of every natural number |
| `Decimal.ParseLeadingZero` | scanner.py:121 | a leading zero does not change the parsed value, as with `int("007")` |
| `Resolver.Contains` | scanner.py:108 | `sub in s`: an occurrence needs `s` at least as long as `sub` |
| `Resolver.ContainsAt` | scanner.py:108 | the scanning definition of `".local" in name` agrees with "occurs at some position" |
| `Resolver.NetbiosStep` | scanner.py:89-103 | with `os` bound to `None` the block leaves `friendly_name` unchanged; it can only change it when `os` is the module, and then to the `nbtstat` name on `"nt"` or the `nmblookup` name elsewhere |
| `Resolver.FriendlyName` | scanner.py:70-111 | the final `friendly_name` is the accepted reverse-lookup name if any, else `"<vendor> device"` when a MAC is present and its lookup succeeds, else `None`; never the empty string |
| `Resolver.MdnsWinsOverEarlierSteps` | scanner.py:79-111 | an accepted `.local` reverse-lookup name is the final `friendly_name`, whatever the vendor and NetBIOS steps produced and whatever `os` is bound to |
| `Resolver.FailedLookupsKeepEarlierName` | scanner.py:79-111 | with `os` bound to `None`, a missing MAC or failed vendor lookup and a failed or non-`.local` reverse lookup leave any earlier `friendly_name` unchanged |
| `Resolver.NetbiosOutcomeIrrelevant` | scanner.py:68-103 | the inserted row is the same whatever `nbtstat` and `nmblookup` would return |
| `Resolver.ResolveHost` | scanner.py:66-122 | `dns` is the nmap host name when it is non-empty, else the final `friendly_name`; it is never `""`; `mac` is the record's MAC or `None`; `os` is the first OS match iff there is one; `uptime` is `int(seconds)` iff the record has an uptime |
| `Resolver.VendorBackfillExample` | scanner.py:79-114 | MAC of vendor "Acme", nothing else found: `dns` is "Acme device" |
| `Resolver.HostnameWinsOverMdnsExample` | scanner.py:75-114 | host name "printer.local" and mDNS "printer2.local": `dns` stays "printer.local" |
| `Resolver.HostnameOnlyExample` | scanner.py:74-77 | only a host name "laptop.lan": `dns` is "laptop.lan" |
| `ScanStore.Database.Connect` | scanner.py:13-14 | a new connection sees exactly the rows on disk, with nothing pending |
| `ScanStore.Database.CreateTable` | scanner.py:17-43 | `CREATE TABLE if not exists` with no transaction open adds the table if missing, is durable at once and changes no row, so repeating it changes nothing |
| `ScanStore.Database.InsertScan` | scanner.py:45-47 | appends one pending scan row; `lastrowid` is its id, one more than the previous count |
| `ScanStore.Database.InsertHost` | scanner.py:126-127 | appends the pending host row iff its scan id names an existing scan (foreign key), else changes nothing |
| `ScanStore.Database.Commit` | scanner.py:131 | all visible rows become durable, and the commit is logged |
| `Scanner.HostRows` | scanner.py:66-127 | one row per detail-swept host, in iteration order, each the resolution of that host under the given scan id |
| `Scanner.RowsReferenceScan` | scanner.py:126-127 | every row of a run carries that run's scan id |
| `Scanner.RecordHosts` | scanner.py:66-127 | the loop appends exactly `HostRows` of the detail sweep under the scan id, every insert succeeds, and nothing is committed |
| `Scanner.RunScan` | scanner.py:10-131 | on a fresh connection: both tables exist afterwards; exactly one scan row with the load timestamp is added, even when a sweep fails; the detail sweep gets the joined live hosts; on success the host rows are `HostRows` under the new scan's id and exactly one commit makes everything durable; on a failed sweep no host row is added and nothing but the tables becomes durable |

## Left out

- The output of `script.py`, the psutil resource monitor, is not part of this model. It shares no data with the scanner.
- The nmap engine itself is left out: how it sweeps and what `nm[host]` holds internally. Only its per-host results are modelled.
- The SQL text, the database path and `PRAGMA foreign_keys` are left out. Foreign-key enforcement appears only as `InsertHost` refusing a dangling scan id, and `RunScan` proves that refusal never happens.
- `CREATE TABLE` is modelled only on a connection with no open transaction, which is the only state the script issues it in. A `CREATE TABLE` that joins an open transaction, and is rolled back with it, is not modelled.
- Scan ids are 1-based positions. This matches sqlite's rowid assignment when no scan row is ever deleted, and the scanner never deletes one.
- Errors from the disk or the database engine during an insert or the commit are not modelled.
- `MacLookup`, `socket.gethostbyaddr`, and the `nbtstat` / `nmblookup` commands appear only as their optional outcomes.
- The output parsing of `nbtstat` and `nmblookup` (the regular expression, the split on `<00>`) appears only as the name each would yield.
- Each lookup is a function, so the same argument gives the same answer within a run. A lookup service that answers differently on repeated calls is not modelled.
- `datetime.now()` is an opaque timestamp argument. The text sqlite stores for it is not modelled.
- Screen clearing through `os.system` and the `print` lines are left out.
- A sweep or lookup that raises is not modelled as an exception. A sweep appears as a `RunScan` outcome that stops before the commit, and a lookup as `None`.
- `Resolver.ResolveHost`: `int()` is modelled only on non-empty ASCII digit text, stated as a precondition. Python also accepts surrounding whitespace, a sign and underscores, and raises on anything else. Neither is modelled.
- `Resolver.ResolveHost`: a host record without an `osmatch` key (a `KeyError` in the script) is not modelled. The OS matches are always a list, possibly empty.
