/**
 * The client's configuration record and its host-based capture policy.
 */
module Config {

  /** Header names whose values are redacted when nothing else is configured. */
  const DefaultRedactHeaders: seq<string> := ["authorization", "x-api-key"]

  /** The settings every interceptor consults. Host lists are Python lists,
      so membership is list membership and order is kept. */
  datatype SmelloConfig = SmelloConfig(
    serverUrl: string,
    captureHosts: seq<string>,
    captureAll: bool,
    ignoreHosts: seq<string>,
    redactHeaders: seq<string>)
  {
    /** Whether a call to `host` is captured: an ignored host never is;
        otherwise every host is when `captureAll` is set, and only the
        listed capture hosts are when it is not. */
    function ShouldCapture(host: string): (r: bool)
      ensures host in ignoreHosts ==> !r
      ensures host !in ignoreHosts && captureAll ==> r
      ensures host !in ignoreHosts && !captureAll ==> (r <==> host in captureHosts)
    {
      if host in ignoreHosts then false
      else if captureAll then true
      else host in captureHosts
    }
  }

  /** `SmelloConfig(server_url=url)`: every other field takes its default. */
  function DefaultConfig(serverUrl: string): (c: SmelloConfig)
    ensures c.serverUrl == serverUrl && c.captureAll
    ensures c.captureHosts == [] && c.ignoreHosts == []
    ensures c.redactHeaders == ["authorization", "x-api-key"]
  {
    SmelloConfig(serverUrl, [], true, [], DefaultRedactHeaders)
  }

  /** The policy as one formula. */
  lemma ShouldCaptureExactly(c: SmelloConfig, host: string)
    ensures c.ShouldCapture(host)
      == (host !in c.ignoreHosts && (c.captureAll || host in c.captureHosts))
  {
  }

  /** With the defaults every host is captured. */
  lemma DefaultCapturesEverything(url: string, host: string)
    ensures DefaultConfig(url).ShouldCapture(host)
  {
  }

  /** Ignoring one more host never starts capturing a host, and stops
      capturing the newly ignored one. */
  lemma IgnoringMoreCapturesLess(c: SmelloConfig, extra: string, host: string)
    ensures !c.(ignoreHosts := c.ignoreHosts + [extra]).ShouldCapture(extra)
    ensures c.(ignoreHosts := c.ignoreHosts + [extra]).ShouldCapture(host)
      ==> c.ShouldCapture(host)
  {
    var d := c.(ignoreHosts := c.ignoreHosts + [extra]);
    assert extra in d.ignoreHosts by { assert d.ignoreHosts[|c.ignoreHosts|] == extra; }
  }
}
