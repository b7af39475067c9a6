/**
 __pmIsLocalhost: whether a host name designates this machine. The name
 "localhost" in any case is local at once; otherwise the machine's own name
 and the given name are resolved and the answer is whether their address
 lists share an address.
 */
module Localhost {
  import opened LibC

  /** An IPv4 address as held in s_addr. */
  type Addr = bv32

  /** What gethostname reports. */
  datatype HostnameReply = GetHostnameFailed(errno: Errno) | LocalName(name: string)

  /**
   The resolver as the function sees it: the machine's own name, the
   address list gethostbyname gives for each name it resolves (a name
   absent from dns does not resolve), and whether calloc of the copy of
   the local addresses succeeds.
   */
  datatype HostEnv = HostEnv(hostname: HostnameReply, dns: map<string, seq<Addr>>, callocOk: bool)

  /** The two address lists have an address in common. */
  predicate SharesAddress(a: seq<Addr>, b: seq<Addr>)
  {
    exists x :: x in a && x in b
  }

  /**
   The verdict: 1 for local, 0 for not local, negative for an error. A
   failure to resolve the machine's own name, or to allocate the copy of its
   addresses, is reported as "not local"; only a failing gethostname and an
   unresolvable hostname are errors.
   */
  function LocalhostVerdict(hostname: string, env: HostEnv): (r: int)
    ensures r == 1 || r == 0 || r < 0
    ensures StrCaseEq(hostname, "localhost") ==> r == 1
  {
    if StrCaseEq(hostname, "localhost") then 1
    else
      match env.hostname
      case GetHostnameFailed(e) => -(e as int)
      case LocalName(lhost) =>
        if lhost !in env.dns || !env.callocOk then 0
        else if hostname !in env.dns then -EHOSTUNREACH
        else if SharesAddress(env.dns[lhost], env.dns[hostname]) then 1
        else 0
  }

  /** __pmIsLocalhost: copies the local addresses into a fresh array and searches both lists with nested loops. */
  method IsLocalhost(hostname: string, env: HostEnv) returns (sts: int)
    ensures sts == LocalhostVerdict(hostname, env)
  {
    sts := 0;
    if StrCaseEq(hostname, "localhost") {
      return 1;
    }
    match env.hostname {
      case GetHostnameFailed(e) =>
        return -(e as int);
      case LocalName(lhost) =>
        if lhost !in env.dns {
          return sts;
        }
        var local := env.dns[lhost];
        var i := |local|;
        if !env.callocOk {
          return sts;
        }
        var laddrs := new Addr[i];
        var k := 0;
        while k < i
          invariant 0 <= k <= i
          invariant laddrs[..k] == local[..k]
        {
          laddrs[k] := local[k];
          k := k + 1;
        }
        assert laddrs[..] == local;
        if hostname !in env.dns {
          return -EHOSTUNREACH;
        }
        var remote := env.dns[hostname];
        i := i - 1;
        while i >= 0
          invariant -1 <= i < laddrs.Length
          invariant forall x :: i < x < laddrs.Length ==> laddrs[x] !in remote
        {
          k := 0;
          while k < |remote|
            invariant 0 <= k <= |remote|
            invariant forall y :: 0 <= y < k ==> remote[y] != laddrs[i]
          {
            if remote[k] == laddrs[i] {
              assert local[i] in local && remote[k] in remote;
              return 1;
            }
            k := k + 1;
          }
          i := i - 1;
        }
        return sts;
    }
  }

  /** Every case variant of "localhost" is local, whatever the resolver would say. */
  lemma LocalhostNeedsNoLookup(hostname: string, env1: HostEnv, env2: HostEnv)
    requires |hostname| == 9
    requires forall i :: 0 <= i < 9 ==> ToLower(hostname[i]) == "localhost"[i]
    ensures LocalhostVerdict(hostname, env1) == 1 == LocalhostVerdict(hostname, env2)
  {
    assert StrCaseEq(hostname, "localhost");
  }

  /**
   Two names that resolve to a common address are each local on the machine
   named by the other.
   */
  lemma SharedAddressLocalBothWays(a: string, b: string, dns: map<string, seq<Addr>>, x: Addr)
    requires a in dns && b in dns && x in dns[a] && x in dns[b]
    ensures LocalhostVerdict(b, HostEnv(LocalName(a), dns, true)) == 1
    ensures LocalhostVerdict(a, HostEnv(LocalName(b), dns, true)) == 1
  {
    assert SharesAddress(dns[a], dns[b]) && SharesAddress(dns[b], dns[a]);
  }

  /**
   A name that is not a case variant of "localhost" is local exactly when
   both names resolve, the copy is allocated and an address is shared.
   */
  lemma LocalExactlyOnSharedAddress(hostname: string, env: HostEnv)
    requires !StrCaseEq(hostname, "localhost") && env.hostname.LocalName?
    ensures LocalhostVerdict(hostname, env) == 1 <==>
      var lhost := env.hostname.name;
      lhost in env.dns && env.callocOk && hostname in env.dns
      && exists x :: x in env.dns[lhost] && x in env.dns[hostname]
  {
  }

  /**
   When the machine's own name does not resolve, the answer is "not local",
   even for a host name that does not resolve either.
   */
  lemma LocalResolutionFailureIsNotLocal(hostname: string, env: HostEnv)
    requires !StrCaseEq(hostname, "localhost")
    requires env.hostname.LocalName? && env.hostname.name !in env.dns
    ensures LocalhostVerdict(hostname, env) == 0
  {
  }

  /** An unresolvable host name is an error only once the local addresses have been copied. */
  lemma UnresolvableHostUnreachable(hostname: string, env: HostEnv)
    requires !StrCaseEq(hostname, "localhost") && hostname !in env.dns
    requires env.hostname.LocalName? && env.hostname.name in env.dns && env.callocOk
    ensures LocalhostVerdict(hostname, env) == -EHOSTUNREACH
  {
  }
}
