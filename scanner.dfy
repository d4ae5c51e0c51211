/**
 * The scanner script as one run: create the tables, record the scan, ping
 * sweep the local network, detail sweep the live hosts, resolve and insert
 * one row per detail-swept host, commit. The nmap engine and the three
 * lookups are given as functions of their arguments; a `None` from
 * `nmapScan` stands for a sweep that raised, which ends the script before
 * the commit.
 */
module Scanner {
  import opened Wrappers
  import opened Records
  import opened Liveness
  import opened Resolver
  import opened ScanStore

  datatype Outcome =
    | Committed(scanId: nat, target: string)
    | PingSweepFailed
    | DetailSweepFailed(target: string)

  /** The target string of the detail sweep: the live hosts of the ping sweep, space-separated. */
  function DetailTarget(sweep: seq<RawHost>): (target: string)
    ensures UpHosts(sweep) == [] ==> target == ""
  {
    JoinSpaces(UpHosts(sweep))
  }

  /**
   * The detail sweep is handed exactly the live hosts: read back as
   * space-separated targets, the target string is the list of "up"
   * addresses, in sweep order, when every address is a single word.
   */
  lemma DetailTargetReadsBack(sweep: seq<RawHost>)
    requires forall i :: 0 <= i < |sweep| ==> IsToken(sweep[i].ip)
    ensures Tokens(DetailTarget(sweep)) == UpHosts(sweep)
  {
    UpHostsAreTokens(sweep);
    TokensOfJoin(UpHosts(sweep));
  }

  /** Every uptime the detail sweep reports is text `int()` accepts. */
  predicate DetailUptimesParse(nmapScan: (string, string) -> Option<seq<RawHost>>) {
    match nmapScan(LocalNetwork, PingArgs)
    case None => true
    case Some(sweep) =>
      match nmapScan(DetailTarget(sweep), DetailArgs)
      case None => true
      case Some(detail) => forall i :: 0 <= i < |detail| ==> UptimeParses(detail[i])
  }

  /** The rows the detail loop inserts: one per detail-swept host, in iteration order, all under `scanId`. */
  function HostRows(detail: seq<RawHost>, lookups: Lookups, scanId: nat): (rows: seq<HostRow>)
    requires forall i :: 0 <= i < |detail| ==> UptimeParses(detail[i])
    ensures |rows| == |detail|
    ensures forall i :: 0 <= i < |detail| ==>
              rows[i] == ResolveHost(detail[i], lookups, scanId)
    decreases |detail|
  {
    if detail == [] then []
    else
      var last := detail[|detail| - 1];
      HostRows(detail[..|detail| - 1], lookups, scanId) + [ResolveHost(last, lookups, scanId)]
  }

  /**
   * The detail loop: resolve each detail-swept host and insert its row under
   * `scanId`, in iteration order. Every insert succeeds because the scan row
   * exists; nothing is committed here.
   */
  method RecordHosts(db: Database, hosts: seq<RawHost>, lookups: Lookups, scanId: nat)
    requires db.Valid() && HostsTable in db.tables && 1 <= scanId <= |db.scans|
    requires forall i :: 0 <= i < |hosts| ==> UptimeParses(hosts[i])
    modifies db
    ensures db.Valid()
    ensures db.hosts == old(db.hosts) + HostRows(hosts, lookups, scanId)
    ensures db.tables == old(db.tables) && db.scans == old(db.scans)
    ensures db.durable == old(db.durable) && db.commits == old(db.commits)
  {
    var i := 0;
    while i < |hosts|
      invariant 0 <= i <= |hosts|
      invariant db.Valid()
      invariant db.tables == old(db.tables) && db.scans == old(db.scans)
      invariant db.hosts == old(db.hosts) + HostRows(hosts[..i], lookups, scanId)
      invariant db.durable == old(db.durable) && db.commits == old(db.commits)
    {
      var row := ResolveHost(hosts[i], lookups, scanId);
      var ok := db.InsertHost(row);
      assert ok;
      assert hosts[..i + 1][..i] == hosts[..i];
      i := i + 1;
    }
    assert hosts[..i] == hosts;
  }

  /**
   * One run of the script against an open database. The scan row (with the
   * module-load timestamp) is inserted before either sweep; the host rows all
   * carry its id; nothing becomes durable except by the single final commit,
   * so a run that ends early leaves only the created tables behind.
   */
  method RunScan(db: Database, time: Timestamp,
                 nmapScan: (string, string) -> Option<seq<RawHost>>, lookups: Lookups)
    returns (outcome: Outcome)
    requires db.Valid()
    requires db.durable == db.Current()
    requires DetailUptimesParse(nmapScan)
    modifies db
    ensures db.Valid()
    ensures db.tables == old(db.tables) + {ScansTable, HostsTable}
    ensures db.scans == old(db.scans) + [time]
    ensures outcome == PingSweepFailed <==> nmapScan(LocalNetwork, PingArgs).None?
    ensures outcome.DetailSweepFailed? || outcome.Committed? ==>
              nmapScan(LocalNetwork, PingArgs).Some? &&
              outcome.target == DetailTarget(nmapScan(LocalNetwork, PingArgs).value)
    ensures outcome.DetailSweepFailed? <==>
              nmapScan(LocalNetwork, PingArgs).Some? &&
              nmapScan(DetailTarget(nmapScan(LocalNetwork, PingArgs).value), DetailArgs).None?
    ensures outcome.Committed? ==>
              && nmapScan(outcome.target, DetailArgs).Some?
              && outcome.scanId == |db.scans|
              && db.hosts == old(db.hosts) + HostRows(nmapScan(outcome.target, DetailArgs).value,
                                                      lookups, outcome.scanId)
              && db.durable == db.Current()
              && db.commits == old(db.commits) + [db.Current()]
    ensures !outcome.Committed? ==>
              && db.hosts == old(db.hosts)
              && db.durable == old(db.durable).(tables := db.tables)
              && db.commits == old(db.commits)
  {
    db.CreateTable(ScansTable);
    db.CreateTable(HostsTable);
    var scanId := db.InsertScan(time);

    var ping := nmapScan(LocalNetwork, PingArgs);
    if ping.None? {
      return PingSweepFailed;
    }
    var liveHosts := CollectLiveHosts(ping.value);
    var target := JoinSpaces(liveHosts);

    var detail := nmapScan(target, DetailArgs);
    if detail.None? {
      return DetailSweepFailed(target);
    }
    var hosts := detail.value;

    RecordHosts(db, hosts, lookups, scanId);
    db.Commit();
    return Committed(scanId, target);
  }

  /** Every host row a committed run adds references that run's scan. */
  lemma RowsReferenceScan(detail: seq<RawHost>, lookups: Lookups, scanId: nat)
    requires forall i :: 0 <= i < |detail| ==> UptimeParses(detail[i])
    ensures forall row :: row in HostRows(detail, lookups, scanId) ==>
              row.scanId == scanId
  {
  }
}
