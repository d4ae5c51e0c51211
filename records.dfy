/**
 * The values that flow through the scanner: what the nmap engine reports
 * for one host (`nm[host]`), and the row written to the `hosts` table.
 */
module Records {
  import opened Wrappers

  /** The `time` column of a scan; the `datetime.now()` value is opaque here. */
  type Timestamp = string

  /** The address range of the ping sweep. */
  const LocalNetwork: string := "192.168.1.0/24"
  /** nmap arguments of the liveness (ping-only) sweep. */
  const PingArgs: string := "-sn"
  /** nmap arguments of the detail (OS fingerprint) sweep. */
  const DetailArgs: string := "-O --osscan-guess"

  /**
   * One entry of `nm.all_hosts()` together with what `nm[host]` says about it:
   * `state()`, `hostname()` ("" when nmap found none), `addresses['mac']`
   * when present, the names of the `osmatch` entries in nmap's order, and
   * `uptime["seconds"]` as nmap's text when the record has an `uptime` entry.
   */
  datatype RawHost = RawHost(
    ip: string,
    state: string,
    hostname: string,
    mac: Option<string>,
    osMatches: seq<string>,
    uptimeSeconds: Option<string>)

  /** One row of the `hosts` table: (ip, mac, dns, os, uptime, scanID). */
  datatype HostRow = HostRow(
    ip: string,
    mac: Option<string>,
    dns: Option<string>,
    os: Option<string>,
    uptime: Option<nat>,
    scanId: nat)
}
