/**
 * Per-host field resolution of the detail-sweep loop: `mac`, `dns`, `os`
 * and `uptime`, with `friendly_name` overwritten by a fixed chain of
 * best-effort lookups. Each lookup is given as a function of its argument:
 * `None` stands for a lookup that raised (and was swallowed by a bare
 * `except`) or found nothing.
 */
module Resolver {
  import opened Wrappers
  import opened Records
  import opened Decimal

  /** What the name `os` is bound to: the `os` module (with its `os.name`), or `None`. */
  datatype PyValue = OsModule(name: string) | PyNone

  /**
   * The outcomes of the external lookups, by argument: the MAC-vendor
   * lookup (by MAC), the name found in `nbtstat -A` and in `nmblookup -A`
   * output (by IP), and `socket.gethostbyaddr(ip)[0]` (by IP).
   */
  datatype Lookups = Lookups(
    vendor: string -> Option<string>,
    nbtstat: string -> Option<string>,
    nmblookup: string -> Option<string>,
    reverse: string -> Option<string>)

  /** Python truthiness of an optional string: present and non-empty. */
  predicate Truthy(v: Option<string>) {
    v.Some? && v.value != ""
  }

  /** Python's `sub in s` on strings, defined by scanning `s` from the left. */
  predicate Contains(s: string, sub: string)
    ensures Contains(s, sub) ==> |sub| <= |s|
    decreases |s|
  {
    sub <= s || (s != [] && Contains(s[1..], sub))
  }

  /** `sub` occurs in `s` starting at position `i`. */
  predicate OccursAt(s: string, sub: string, i: int) {
    0 <= i <= |s| - |sub| && s[i..i + |sub|] == sub
  }

  /** An occurrence at position 0 is a prefix. */
  lemma OccursAtStart(s: string, sub: string)
    ensures OccursAt(s, sub, 0) <==> sub <= s
  {
  }

  /** An occurrence past position 0 is an occurrence in the tail, one position earlier. */
  lemma OccursInTail(s: string, sub: string, i: int)
    requires s != [] && i >= 1
    ensures OccursAt(s, sub, i) <==> OccursAt(s[1..], sub, i - 1)
  {
  }

  /** `Contains` agrees with the positional reading of substring membership. */
  lemma {:induction false} ContainsAt(s: string, sub: string)
    ensures Contains(s, sub) <==> exists i :: OccursAt(s, sub, i)
    decreases |s|
  {
    OccursAtStart(s, sub);
    if s != [] {
      ContainsAt(s[1..], sub);
      if exists i :: OccursAt(s, sub, i) {
        var i :| OccursAt(s, sub, i);
        if i >= 1 { OccursInTail(s, sub, i); }
      }
      if exists j :: OccursAt(s[1..], sub, j) {
        var j :| OccursAt(s[1..], sub, j);
        OccursInTail(s, sub, j + 1);
      }
    }
  }

  /** The MAC-vendor step: a successful lookup replaces `friendly`, a failed one leaves it. */
  function VendorStep(mac: Option<string>, vendorLookup: string -> Option<string>,
                      friendly: Option<string>): (next: Option<string>)
    ensures mac.Some? && vendorLookup(mac.value).Some? ==> next == Some(vendorLookup(mac.value).value + " device")
    ensures mac.None? || vendorLookup(mac.value).None? ==> next == friendly
  {
    if mac.None? then friendly
    else match vendorLookup(mac.value)
      case Some(vendor) => Some(vendor + " device")
      case None => friendly
  }

  /**
   * The NetBIOS step. It reads `os.name`, so it only does anything when `os`
   * is the module: on Windows (`"nt"`) it takes the `nbtstat` name, elsewhere
   * the `nmblookup` name. On `None` the attribute access raises and the bare
   * `except` leaves `friendly` as it was.
   */
  function NetbiosStep(os: PyValue, ip: string, lookups: Lookups, friendly: Option<string>): (next: Option<string>)
    ensures !os.OsModule? ==> next == friendly
    ensures next != friendly ==>
              (os.OsModule? && next == if os.name == "nt" then lookups.nbtstat(ip) else lookups.nmblookup(ip))
  {
    match os
    case OsModule(name) =>
      var found := if name == "nt" then lookups.nbtstat(ip) else lookups.nmblookup(ip);
      if found.Some? then found else friendly
    case PyNone => friendly
  }

  /** The reverse-lookup result is taken only when it is non-empty and contains ".local". */
  predicate MdnsAccepted(name: Option<string>) {
    name.Some? && name.value != "" && Contains(name.value, ".local")
  }

  /** The mDNS / reverse-lookup step: an accepted name overrides, anything else keeps `friendly`. */
  function MdnsStep(reverse: Option<string>, friendly: Option<string>): (next: Option<string>)
    ensures MdnsAccepted(reverse) ==> next == reverse
    ensures !MdnsAccepted(reverse) ==> next == friendly
  {
    if MdnsAccepted(reverse) then reverse else friendly
  }

  /**
   * `friendly_name` at the end of the chain, computed in the script's
   * overwrite order. The result is the accepted reverse-lookup name if there
   * is one, else the vendor name, else `None`; the NetBIOS lookups never
   * matter, because `os` was rebound to `None` at the top of the loop body.
   */
  function FriendlyName(raw: RawHost, lookups: Lookups): (friendly: Option<string>)
    ensures MdnsAccepted(lookups.reverse(raw.ip)) ==> friendly == lookups.reverse(raw.ip)
    ensures !MdnsAccepted(lookups.reverse(raw.ip)) ==>
              friendly == if raw.mac.Some? && lookups.vendor(raw.mac.value).Some?
                          then Some(lookups.vendor(raw.mac.value).value + " device")
                          else None
    ensures friendly.Some? ==> friendly.value != ""
  {
    var os := PyNone;
    var f0 := None;
    var f1 := VendorStep(raw.mac, lookups.vendor, f0);
    var f2 := NetbiosStep(os, raw.ip, lookups, f1);
    MdnsStep(lookups.reverse(raw.ip), f2)
  }

  /** `int(uptime["seconds"])` only succeeds on decimal text; that is what this model assumes. */
  predicate UptimeParses(raw: RawHost) {
    raw.uptimeSeconds.Some? ==> IsDecimal(raw.uptimeSeconds.value)
  }

  /**
   * The host row the loop body inserts. `dns` starts as the nmap host name
   * ("" read as `None`) and is backfilled from `friendly_name` only when it
   * is empty, so a non-empty host name always wins.
   */
  function ResolveHost(raw: RawHost, lookups: Lookups, scanId: nat): (row: HostRow)
    requires UptimeParses(raw)
    ensures row.ip == raw.ip && row.scanId == scanId
    ensures row.dns == if raw.hostname != "" then Some(raw.hostname) else FriendlyName(raw, lookups)
    ensures row.dns.Some? ==> row.dns.value != ""
    ensures row.mac == raw.mac
    ensures row.os.Some? <==> raw.osMatches != []
    ensures row.os.Some? ==> row.os.value == raw.osMatches[0]
    ensures row.uptime.Some? <==> raw.uptimeSeconds.Some?
    ensures row.uptime.Some? ==> row.uptime.value == ParseDecimal(raw.uptimeSeconds.value)
  {
    var hostDns := if raw.hostname == "" then None else Some(raw.hostname);
    var friendly := FriendlyName(raw, lookups);
    var dns := if Truthy(friendly) && !Truthy(hostDns) then friendly else hostDns;
    var os := if raw.osMatches != [] then Some(raw.osMatches[0]) else None;
    var uptime := match raw.uptimeSeconds
      case Some(seconds) => Some(ParseDecimal(seconds))
      case None => None;
    HostRow(raw.ip, raw.mac, dns, os, uptime, scanId)
  }

  /**
   * An accepted `.local` reverse-lookup name is the final `friendly_name`,
   * whatever the earlier steps produced and whatever `os` is bound to.
   */
  lemma MdnsWinsOverEarlierSteps(os: PyValue, ip: string, lookups: Lookups,
                                 mac: Option<string>, friendly: Option<string>)
    requires MdnsAccepted(lookups.reverse(ip))
    ensures MdnsStep(lookups.reverse(ip),
                     NetbiosStep(os, ip, lookups, VendorStep(mac, lookups.vendor, friendly)))
         == lookups.reverse(ip)
  {
  }

  /**
   * With `os` bound to `None`, lookups that fail or do not apply carry any
   * earlier `friendly_name` value through the whole chain unchanged.
   */
  lemma FailedLookupsKeepEarlierName(ip: string, lookups: Lookups,
                                     mac: Option<string>, friendly: Option<string>)
    requires mac.None? || lookups.vendor(mac.value).None?
    requires !MdnsAccepted(lookups.reverse(ip))
    ensures MdnsStep(lookups.reverse(ip),
                     NetbiosStep(PyNone, ip, lookups, VendorStep(mac, lookups.vendor, friendly)))
         == friendly
  {
  }

  /** The NetBIOS commands have no influence on the row that is inserted. */
  lemma NetbiosOutcomeIrrelevant(raw: RawHost, lookups: Lookups,
                                 nbtstat: string -> Option<string>, nmblookup: string -> Option<string>,
                                 scanId: nat)
    requires UptimeParses(raw)
    ensures ResolveHost(raw, lookups.(nbtstat := nbtstat, nmblookup := nmblookup), scanId)
         == ResolveHost(raw, lookups, scanId)
  {
  }

  /** Lookups that all fail except the ones given. */
  function OnlyLookups(vendor: Option<string>, reverse: Option<string>): (lookups: Lookups)
    ensures forall x :: lookups.vendor(x) == vendor && lookups.reverse(x) == reverse
    ensures forall x :: lookups.nbtstat(x) == None && lookups.nmblookup(x) == None
  {
    Lookups((m: string) => vendor, (ip: string) => None, (ip: string) => None, (ip: string) => reverse)
  }

  /** A host with a MAC of vendor "Acme" and nothing else found is stored under "Acme device". */
  lemma VendorBackfillExample(ip: string, mac: string)
    ensures ResolveHost(RawHost(ip, "up", "", Some(mac), [], None),
                        OnlyLookups(Some("Acme"), None), 1).dns == Some("Acme device")
  {
    assert "Acme" + " device" == "Acme device";
  }

  /** A reverse-DNS host name from nmap wins over an accepted mDNS name. */
  lemma HostnameWinsOverMdnsExample(ip: string)
    ensures ResolveHost(RawHost(ip, "up", "printer.local", None, [], None),
                        OnlyLookups(None, Some("printer2.local")), 1).dns == Some("printer.local")
  {
  }

  /** A host known only by its nmap host name is stored under that name. */
  lemma HostnameOnlyExample(ip: string)
    ensures ResolveHost(RawHost(ip, "up", "laptop.lan", None, [], None),
                        OnlyLookups(None, None), 1).dns == Some("laptop.lan")
  {
  }
}
