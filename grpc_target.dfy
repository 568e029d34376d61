/**
 * The host a gRPC channel target names.
 */
module GrpcTarget {
  import opened Wrappers
  import opened PyStr

  /** Name-resolver prefixes, in the order they are tried. */
  const TargetPrefixes: seq<string> := ["dns:///", "dns://", "ipv4:", "ipv6:", "unix:"]

  /** Length of the first of the prefixes from position `i` of
      `TargetPrefixes` on that `target` starts with, or 0 when none does. */
  function ResolverPrefixLength(target: string, i: nat): (n: nat)
    requires i <= |TargetPrefixes|
    ensures n <= |target|
    decreases |TargetPrefixes| - i
  {
    if i == |TargetPrefixes| then 0
    else if StartsWith(target, TargetPrefixes[i]) then |TargetPrefixes[i]|
    else ResolverPrefixLength(target, i + 1)
  }

  /** `target` without its name-resolver prefix. */
  function StripResolverPrefix(target: string): (rest: string)
    ensures |rest| <= |target| && rest == target[|target| - |rest|..]
  {
    target[ResolverPrefixLength(target, 0)..]
  }

  /** The text after the last `/` of `t`, or `t` when it has none. */
  function AfterLastSlash(t: string): (r: string)
    ensures |r| <= |t| && r == t[|t| - |r|..]
    ensures forall i :: 0 <= i < |r| ==> r[i] != '/'
    ensures '/' !in t ==> r == t
  {
    var k := LastIndexOf(t, '/');
    if k < 0 then t else t[k + 1..]
  }

  /** The text before the last `:` of `t`, or `t` when it has none. */
  function DropPort(t: string): (r: string)
    ensures |r| <= |t| && r == t[..|r|]
    ensures ':' !in t ==> r == t
  {
    var k := LastIndexOf(t, ':');
    if k < 0 then t else t[..k]
  }

  /** The host part of a channel target: resolver prefix removed, then
      everything up to the last `/`, then the last `:` and what follows. */
  function HostOf(target: string): string
  {
    DropPort(AfterLastSlash(StripResolverPrefix(target)))
  }

  /** The prefix loop of `_extract_host`. */
  method StripTargetPrefix(target: string) returns (t: string)
    ensures t == StripResolverPrefix(target)
  {
    t := target;
    var i := 0;
    while i < |TargetPrefixes|
      invariant 0 <= i <= |TargetPrefixes|
      invariant t == target
      invariant ResolverPrefixLength(target, 0) == ResolverPrefixLength(target, i)
    {
      if StartsWith(t, TargetPrefixes[i]) {
        t := t[|TargetPrefixes[i]|..];
        break;
      }
      i := i + 1;
    }
  }

  /** `_extract_host`. */
  method ExtractHost(target: string) returns (host: string)
    ensures host == HostOf(target)
  {
    var t := StripTargetPrefix(target);
    if '/' in t {
      var parts := RSplitOnce(t, '/');
      RSplitOnceAfter(t, '/');
      t := parts[|parts| - 1];
    }
    if ':' in t {
      RSplitOnceBefore(t, ':');
      t := RSplitOnce(t, ':')[0];
    }
    host := t;
  }

  /** At most one prefix is removed, and the longer `dns:///` is tried
      before `dns://`. */
  lemma TargetPrefixOrder(target: string)
    ensures StripResolverPrefix(target) ==
      if StartsWith(target, "dns:///") then target[7..]
      else if StartsWith(target, "dns://") then target[6..]
      else if StartsWith(target, "ipv4:") then target[5..]
      else if StartsWith(target, "ipv6:") then target[5..]
      else if StartsWith(target, "unix:") then target[5..]
      else target
  {
    assert ResolverPrefixLength(target, 5) == 0;
  }

  /** The text after the last `/` of `t` when it has one. */
  lemma RSplitOnceAfter(t: string, sep: char)
    requires sep in t
    ensures 0 <= LastIndexOf(t, sep) < |t|
    ensures RSplitOnce(t, sep)[1] == t[LastIndexOf(t, sep) + 1..]
  {
  }

  /** The text before the last `sep` of `t` when it has one. */
  lemma RSplitOnceBefore(t: string, sep: char)
    requires sep in t
    ensures 0 <= LastIndexOf(t, sep) < |t|
    ensures RSplitOnce(t, sep)[0] == t[..LastIndexOf(t, sep)]
  {
  }

  /** The host is never longer than the target. */
  lemma HostNoLonger(target: string)
    ensures |HostOf(target)| <= |target|
  {
  }

  /** The host is one contiguous piece of the target, found at `start`. */
  lemma HostPosition(target: string) returns (start: nat)
    ensures start + |HostOf(target)| <= |target|
    ensures HostOf(target) == target[start..start + |HostOf(target)|]
  {
    var rest := StripResolverPrefix(target);
    start := PieceAt(target, rest, AfterLastSlash(rest), HostOf(target));
  }

  /** A prefix `h` of a suffix `u` of a suffix `rest` of `t` sits in `t` at `start`. */
  lemma PieceAt(t: string, rest: string, u: string, h: string) returns (start: nat)
    requires |rest| <= |t| && rest == t[|t| - |rest|..]
    requires |u| <= |rest| && u == rest[|rest| - |u|..]
    requires |h| <= |u| && h == u[..|h|]
    ensures start + |h| <= |t| && h == t[start..start + |h|]
  {
    start := |t| - |u|;
    assert u == t[start..];
  }

  /** The host never holds a `/`. */
  lemma HostOfHasNoSlash(target: string)
    ensures '/' !in HostOf(target)
  {
    PortlessKeepsAbsent(AfterLastSlash(StripResolverPrefix(target)), '/');
  }

  /** Dropping the port adds no character. */
  lemma PortlessKeepsAbsent(t: string, c: char)
    requires c !in t
    ensures c !in DropPort(t)
  {
    var h := DropPort(t);
    assert forall i :: 0 <= i < |h| ==> h[i] == t[i];
  }

  /** A `c` with no `c` after it is the last one. */
  lemma LastIndexAt(s: string, c: char, k: nat)
    requires k < |s| && s[k] == c
    requires forall i :: k < i < |s| ==> s[i] != c
    ensures LastIndexOf(s, c) == k
  {
  }

  /** `host:port` loses the port, up to the last `:`. */
  lemma PortDropped(host: string, port: string)
    requires ':' !in port
    ensures DropPort(host + [':'] + port) == host
  {
    var t := host + [':'] + port;
    assert t[|host|] == ':';
    LastIndexAt(t, ':', |host|);
    assert t[..|host|] == host;
  }

  /** `authority/path/rest` keeps only what follows the last `/`. */
  lemma PathDropped(path: string, rest: string)
    requires '/' !in rest
    ensures AfterLastSlash(path + ['/'] + rest) == rest
  {
    var t := path + ['/'] + rest;
    assert t[|path|] == '/';
    LastIndexAt(t, '/', |path|);
    assert t[|path| + 1..] == rest;
  }

  /** A target of the form `[prefix][authority/]host:port` names `host`. */
  lemma HostOfHostPort(target: string, authority: Option<string>, host: string, port: string)
    requires '/' !in host && '/' !in port && ':' !in port
    requires StripResolverPrefix(target) ==
      (if authority.Some? then authority.value + ['/'] else []) + host + [':'] + port
    ensures HostOf(target) == host
  {
    var hp := host + [':'] + port;
    assert '/' !in hp by {
      assert forall i :: 0 <= i < |hp| ==> hp[i] == if i < |host| then host[i] else if i == |host| then ':' else port[i - |host| - 1];
    }
    if authority.Some? {
      assert StripResolverPrefix(target) == authority.value + ['/'] + hp;
      PathDropped(authority.value, hp);
    } else {
      assert StripResolverPrefix(target) == hp;
    }
    PortDropped(host, port);
  }
}
