/**
 * The sqlite database of the scanner, seen abstractly: the `scans` and
 * `hosts` tables, the rows visible through the cursor (which include the
 * open transaction), and the durable contents on disk. Python's sqlite3
 * opens a transaction implicitly only before an INSERT, UPDATE, DELETE or
 * REPLACE, so a `CREATE TABLE` issued while no transaction is open is
 * durable at once; this model only creates tables in that state. Inserted
 * rows become durable only at `commit()`.
 */
module ScanStore {
  import opened Records

  datatype Table = ScansTable | HostsTable

  /** A database state: existing tables, the `scans` rows (id i+1 at position i) and the `hosts` rows. */
  datatype Snapshot = Snapshot(tables: set<Table>, scans: seq<Timestamp>, hosts: seq<HostRow>)

  /** Every host row references an existing scan (`FOREIGN KEY (scanID) REFERENCES scans(id)`). */
  predicate ReferencesResolve(scans: seq<Timestamp>, hosts: seq<HostRow>) {
    forall i :: 0 <= i < |hosts| ==> 1 <= hosts[i].scanId <= |scans|
  }

  /** A table that does not exist holds no rows, and references resolve. */
  predicate Consistent(db: Snapshot) {
    && (ScansTable !in db.tables ==> db.scans == [])
    && (HostsTable !in db.tables ==> db.hosts == [])
    && ReferencesResolve(db.scans, db.hosts)
  }

  class Database {
    var tables: set<Table>
    var scans: seq<Timestamp>
    var hosts: seq<HostRow>
    /** What is on disk: the state as of the last commit, plus created tables. */
    var durable: Snapshot
    /** Every snapshot made durable by a commit on this connection, in order. */
    ghost var commits: seq<Snapshot>

    function Current(): (db: Snapshot)
      reads this
    {
      Snapshot(tables, scans, hosts)
    }

    /** The open transaction only appends rows to what is durable. */
    ghost predicate Valid()
      reads this
    {
      && Consistent(Current())
      && Consistent(durable)
      && durable.tables == tables
      && durable.scans <= scans
      && durable.hosts <= hosts
    }

    /** `sqlite3.connect`: the rows visible are those on disk, nothing is pending. */
    constructor Connect(onDisk: Snapshot)
      requires Consistent(onDisk)
      ensures Valid()
      ensures Current() == onDisk && durable == onDisk && commits == []
    {
      tables, scans, hosts := onDisk.tables, onDisk.scans, onDisk.hosts;
      durable := onDisk;
      commits := [];
    }

    /**
     * `CREATE TABLE if not exists` with no transaction open: idempotent,
     * durable at once, rows untouched.
     */
    method CreateTable(t: Table)
      requires Valid()
      requires durable.scans == scans && durable.hosts == hosts
      modifies this
      ensures Valid()
      ensures tables == old(tables) + {t}
      ensures scans == old(scans) && hosts == old(hosts)
      ensures durable == old(durable).(tables := tables)
      ensures commits == old(commits)
    {
      tables := tables + {t};
      durable := durable.(tables := tables);
    }

    /** `INSERT INTO scans (time)`; `id` is the new row's `lastrowid`. */
    method InsertScan(time: Timestamp) returns (id: nat)
      requires Valid() && ScansTable in tables
      modifies this
      ensures Valid()
      ensures scans == old(scans) + [time] && id == |scans|
      ensures tables == old(tables) && hosts == old(hosts)
      ensures durable == old(durable) && commits == old(commits)
    {
      scans := scans + [time];
      id := |scans|;
    }

    /**
     * `INSERT INTO hosts`. With foreign keys on, a row whose scan id names
     * no scan is refused (`ok` false) and nothing changes.
     */
    method InsertHost(row: HostRow) returns (ok: bool)
      requires Valid() && HostsTable in tables
      modifies this
      ensures Valid()
      ensures ok <==> 1 <= row.scanId <= |old(scans)|
      ensures hosts == if ok then old(hosts) + [row] else old(hosts)
      ensures tables == old(tables) && scans == old(scans)
      ensures durable == old(durable) && commits == old(commits)
    {
      ok := 1 <= row.scanId <= |scans|;
      if ok {
        hosts := hosts + [row];
      }
    }

    /** `connection.commit()`: everything visible becomes durable. */
    method Commit()
      requires Valid()
      modifies this
      ensures Valid()
      ensures Current() == old(Current())
      ensures durable == Current() && commits == old(commits) + [Current()]
    {
      durable := Current();
      commits := commits + [durable];
    }
  }
}
