/**
 * The liveness filter of the scanner: the ping-sweep hosts whose state is
 * "up", in the order `nm.all_hosts()` yields them, and the space-separated
 * target string built from them for the detail sweep.
 */
module Liveness {
  import opened Records

  /** The addresses of the hosts reported "up", in sweep order. */
  function UpHosts(sweep: seq<RawHost>): (live: seq<string>)
    ensures |live| <= |sweep|
    decreases |sweep|
  {
    if sweep == [] then []
    else UpHosts(sweep[..|sweep| - 1])
         + (if sweep[|sweep| - 1].state == "up" then [sweep[|sweep| - 1].ip] else [])
  }

  /** An address is live exactly when some host of the sweep with that address is "up". */
  lemma {:induction false} UpHostsMembership(sweep: seq<RawHost>, ip: string)
    ensures ip in UpHosts(sweep) <==>
            exists i :: 0 <= i < |sweep| && sweep[i].ip == ip && sweep[i].state == "up"
    decreases |sweep|
  {
    if sweep != [] {
      var init := sweep[..|sweep| - 1];
      UpHostsMembership(init, ip);
      if ip in UpHosts(init) {
        var i :| 0 <= i < |init| && init[i].ip == ip && init[i].state == "up";
        assert sweep[i] == init[i];
      }
      if exists i :: 0 <= i < |sweep| && sweep[i].ip == ip && sweep[i].state == "up" {
        var i :| 0 <= i < |sweep| && sweep[i].ip == ip && sweep[i].state == "up";
        if i < |init| { assert init[i] == sweep[i]; }
      }
    }
  }

  /** The filter keeps sweep order: filtering two sweeps back to back is filtering each in turn. */
  lemma {:induction false} UpHostsAppend(a: seq<RawHost>, b: seq<RawHost>)
    ensures UpHosts(a + b) == UpHosts(a) + UpHosts(b)
    decreases |b|
  {
    if b != [] {
      var b' := b[..|b| - 1];
      assert (a + b)[..|a + b| - 1] == a + b';
      UpHostsAppend(a, b');
    } else {
      assert a + b == a;
    }
  }

  /** When every host is "up", the filter keeps every address, in order. */
  lemma {:induction false} UpHostsAllUp(sweep: seq<RawHost>)
    requires forall i :: 0 <= i < |sweep| ==> sweep[i].state == "up"
    ensures |UpHosts(sweep)| == |sweep|
    ensures forall i :: 0 <= i < |sweep| ==> UpHosts(sweep)[i] == sweep[i].ip
    decreases |sweep|
  {
    if sweep != [] {
      UpHostsAllUp(sweep[..|sweep| - 1]);
    }
  }

  /** The loop of the script that appends each "up" host to `liveHosts`. */
  method CollectLiveHosts(sweep: seq<RawHost>) returns (liveHosts: seq<string>)
    ensures liveHosts == UpHosts(sweep)
  {
    liveHosts := [];
    var i := 0;
    while i < |sweep|
      invariant 0 <= i <= |sweep|
      invariant liveHosts == UpHosts(sweep[..i])
    {
      assert sweep[..i + 1][..i] == sweep[..i];
      if sweep[i].state == "up" {
        liveHosts := liveHosts + [sweep[i].ip];
      }
      i := i + 1;
    }
    assert sweep[..i] == sweep;
  }

  /** Total number of characters in `parts`. */
  function TotalLength(parts: seq<string>): (n: nat)
    decreases |parts|
  {
    if parts == [] then 0 else |parts[0]| + TotalLength(parts[1..])
  }

  /** Python's `' '.join(parts)`: the parts, in order, with one space between neighbours. */
  function JoinSpaces(parts: seq<string>): (joined: string)
    ensures parts == [] ==> joined == ""
    ensures parts != [] ==> parts[0] <= joined && |joined| == TotalLength(parts) + |parts| - 1
    decreases |parts|
  {
    if parts == [] then ""
    else if |parts| == 1 then parts[0]
    else parts[0] + " " + JoinSpaces(parts[1..])
  }

  /** A target nmap can read back as one address: non-empty, no space in it. */
  predicate IsToken(s: string) {
    s != [] && forall i :: 0 <= i < |s| ==> s[i] != ' '
  }

  /** Length of the leading run of non-space characters. */
  function TokenLength(s: string): (n: nat)
    ensures n <= |s|
    ensures forall i :: 0 <= i < n ==> s[i] != ' '
    ensures n < |s| ==> s[n] == ' '
    decreases |s|
  {
    if s == [] || s[0] == ' ' then 0 else 1 + TokenLength(s[1..])
  }

  /**
   * This model's reading of a target specification as a list of targets:
   * space-separated words, runs of spaces and empty words ignored. nmap's
   * own reading also splits on other whitespace and honours quotes; the two
   * agree on strings made of single-word addresses joined by spaces.
   */
  function Tokens(s: string): (words: seq<string>)
    ensures forall i :: 0 <= i < |words| ==> IsToken(words[i])
    decreases |s|
  {
    if s == [] then []
    else if s[0] == ' ' then Tokens(s[1..])
    else
      var n := TokenLength(s);
      [s[..n]] + Tokens(s[n..])
  }

  lemma {:induction false} TokenLengthOfToken(t: string, rest: string)
    requires forall i :: 0 <= i < |t| ==> t[i] != ' '
    requires rest == [] || rest[0] == ' '
    ensures TokenLength(t + rest) == |t|
    decreases |t|
  {
    if t == [] {
      assert t + rest == rest;
    } else {
      assert (t + rest)[1..] == t[1..] + rest;
      TokenLengthOfToken(t[1..], rest);
    }
  }

  /** A word followed by a space and more text reads as that word, then the rest. */
  lemma TokensOfWordThenRest(t: string, r: string)
    requires IsToken(t)
    ensures Tokens(t + " " + r) == [t] + Tokens(r)
  {
    var rest := " " + r;
    var s := t + rest;
    assert s == t + " " + r;
    TokenLengthOfToken(t, rest);
    assert s[..|t|] == t;
    assert s[|t|..] == rest;
    assert rest[1..] == r;
  }

  /** A single word reads as itself. */
  lemma TokensOfWord(t: string)
    requires IsToken(t)
    ensures Tokens(t) == [t]
  {
    TokenLengthOfToken(t, "");
    assert t + "" == t;
    assert t[..|t|] == t && t[|t|..] == "";
  }

  /**
   * The joined target string denotes exactly the live hosts: reading it
   * back as space-separated targets gives the list that was joined.
   */
  lemma {:induction false} TokensOfJoin(parts: seq<string>)
    requires forall i :: 0 <= i < |parts| ==> IsToken(parts[i])
    ensures Tokens(JoinSpaces(parts)) == parts
    decreases |parts|
  {
    if parts == [] {
    } else if |parts| == 1 {
      TokensOfWord(parts[0]);
    } else {
      TokensOfWordThenRest(parts[0], JoinSpaces(parts[1..]));
      TokensOfJoin(parts[1..]);
      assert parts == [parts[0]] + parts[1..];
    }
  }

  /** When every swept address is a single word, so is every live host. */
  lemma UpHostsAreTokens(sweep: seq<RawHost>)
    requires forall i :: 0 <= i < |sweep| ==> IsToken(sweep[i].ip)
    ensures forall k :: 0 <= k < |UpHosts(sweep)| ==> IsToken(UpHosts(sweep)[k])
  {
    var live := UpHosts(sweep);
    forall k | 0 <= k < |live| ensures IsToken(live[k]) {
      UpHostsMembership(sweep, live[k]);
    }
  }

  /** With no live host the detail sweep is handed the empty target string. */
  lemma NoLiveHostsEmptyTarget(sweep: seq<RawHost>)
    requires forall i :: 0 <= i < |sweep| ==> sweep[i].state != "up"
    ensures JoinSpaces(UpHosts(sweep)) == ""
  {
    if UpHosts(sweep) != [] {
      UpHostsMembership(sweep, UpHosts(sweep)[0]);
    }
  }
}
