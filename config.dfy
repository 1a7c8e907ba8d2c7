/**
 * config.js: chooses the API base URL once per page from the page's own
 * location and publishes it, with a fixed fallback, on the window object.
 *
 * The manual override MANUAL_NGROK_API_URL is a parameter: the script ships
 * with it set to null, which is None here.
 */
module Config {
  import opened Common

  const LocalApiBase := "http://localhost:5169/api"
  const ApiPath := "/api"

  predicate IsLocalHost(hostname: string) {
    hostname == "localhost" || hostname == "127.0.0.1"
  }

  /** `${protocol}//${hostname}${port ? ':' + port : ''}/api`: the API on the page's own origin. */
  function SameOriginApi(protocol: string, hostname: string, port: string): (r: string)
    ensures |r| >= |protocol| + 2 + |hostname| + |ApiPath|
    ensures r[..|protocol| + 2 + |hostname|] == protocol + "//" + hostname
    ensures r[|r| - |ApiPath|..] == ApiPath
  {
    if port != "" then protocol + "//" + hostname + ":" + port + ApiPath
    else protocol + "//" + hostname + ApiPath
  }

  /** The address the script computes when no base is published yet. */
  function SelectApiBase(manual: Option<string>, protocol: string, hostname: string, port: string): (r: string)
    ensures manual.Some? && manual.value != "" ==> r == manual.value
    ensures manual.None? || manual.value == "" ==> |r| >= |ApiPath| && r[|r| - |ApiPath|..] == ApiPath
    ensures (manual.None? || manual.value == "") && IsLocalHost(hostname) ==> r == LocalApiBase
    ensures (manual.None? || manual.value == "") && !IsLocalHost(hostname) ==>
              |r| >= |protocol| + 2 + |hostname| && r[..|protocol| + 2 + |hostname|] == protocol + "//" + hostname
    ensures (manual.None? || manual.value == "") && !IsLocalHost(hostname) && Contains(hostname, "ngrok") ==>
              r == protocol + "//" + hostname + ApiPath
  {
    assert LocalApiBase[|LocalApiBase| - |ApiPath|..] == ApiPath;
    if manual.Some? && manual.value != "" then manual.value
    else if IsLocalHost(hostname) then LocalApiBase
    else if Contains(hostname, "ngrok") then SameOriginApi(protocol, hostname, "")
    else SameOriginApi(protocol, hostname, port)
  }

  /** Local hosts and ngrok hosts ignore the page's port; any other host keeps it. */
  lemma PortMattersOnlyElsewhere(protocol: string, hostname: string, port1: string, port2: string)
    ensures IsLocalHost(hostname) || Contains(hostname, "ngrok") ==>
              SelectApiBase(None, protocol, hostname, port1) == SelectApiBase(None, protocol, hostname, port2)
    ensures !IsLocalHost(hostname) && !Contains(hostname, "ngrok") && port1 != port2 ==>
              SelectApiBase(None, protocol, hostname, port1) != SelectApiBase(None, protocol, hostname, port2)
  {
    if !IsLocalHost(hostname) && !Contains(hostname, "ngrok") && port1 != port2 {
      var a := SelectApiBase(None, protocol, hostname, port1);
      var b := SelectApiBase(None, protocol, hostname, port2);
      var n := |protocol| + 2 + |hostname|;
      if port1 == "" || port2 == "" {
        assert |a| != |b|;
      } else {
        assert a[n + 1..|a| - |ApiPath|] == port1;
        assert b[n + 1..|b| - |ApiPath|] == port2;
      }
    }
  }

  /** On a remote host other than ngrok, the API shares the page's protocol, host and port. */
  lemma RemoteHostUsesPageOrigin(protocol: string, hostname: string, port: string)
    requires !IsLocalHost(hostname) && !Contains(hostname, "ngrok")
    ensures SelectApiBase(None, protocol, hostname, port) == SameOriginApi(protocol, hostname, port)
  {
  }

  /** `typeof x === 'undefined' ? computed : x`: a published value is never replaced. */
  function Published(existing: Option<string>, computed: string): (r: Option<string>)
    ensures r.Some?
    ensures existing.Some? ==> r == existing
    ensures existing.None? ==> r == Some(computed)
  {
    if existing.None? then Some(computed) else existing
  }

  /** Loading the script again, from any location, keeps the first published base. */
  lemma PublishedOnce(existing: Option<string>, first: string, second: string)
    ensures Published(Published(existing, first), second) == Published(existing, first)
  {
  }

  /** The page's window object as config.js sees it; None is an undefined property. */
  class BrowserWindow {
    var apiBase: Option<string>
    var apiBaseFallback: Option<string>

    constructor (apiBase: Option<string>, apiBaseFallback: Option<string>)
      ensures this.apiBase == apiBase && this.apiBaseFallback == apiBaseFallback
    {
      this.apiBase := apiBase;
      this.apiBaseFallback := apiBaseFallback;
    }

    /** Running config.js: publishes API_BASE and API_BASE_FALLBACK where they are undefined. */
    method LoadConfig(manual: Option<string>, protocol: string, hostname: string, port: string)
      modifies this
      ensures apiBase == Published(old(apiBase), SelectApiBase(manual, protocol, hostname, port))
      ensures apiBaseFallback == Published(old(apiBaseFallback), LocalApiBase)
    {
      if apiBase.None? {
        var base := "";
        if manual.Some? && manual.value != "" {
          base := manual.value;
        } else if IsLocalHost(hostname) {
          base := LocalApiBase;
        } else if Contains(hostname, "ngrok") {
          base := protocol + "//" + hostname + ApiPath;
        } else {
          base := if port != "" then protocol + "//" + hostname + ":" + port + ApiPath
                  else protocol + "//" + hostname + ApiPath;
        }
        apiBase := Some(base);
      }
      if apiBaseFallback.None? {
        apiBaseFallback := Some(LocalApiBase);
      }
    }
  }
}
