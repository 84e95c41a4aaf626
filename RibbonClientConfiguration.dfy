/**
 * The request-rewriting rule of RibbonClientConfiguration.OverrideRestClient:
 * before a request is retargeted at the server the load balancer chose, its
 * scheme is upgraded to "https" when that server looks secure.
 */
module RibbonClientConfiguration {

  import opened Wrappers
  import opened JavaText

  const Https: string := "https"

  /** The port suffix the fallback heuristic takes as evidence of a secure port. */
  const SecurePortSuffix: string := "443"

  /**
   * A candidate server. A DiscoveryEnabled server carries the instance
   * metadata of the discovery backend, of which only whether its secure port
   * is enabled matters here.
   */
  datatype Server =
    | Plain(host: string, port: Int32)
    | DiscoveryEnabled(host: string, port: Int32, securePortEnabled: bool)

  /**
   * A java.net.URI by its components. Every component but the port may be
   * absent (null in Java); the port is a Java int, -1 when absent, as in
   * java.net.URI.
   */
  datatype Uri = Uri(
    scheme: Option<string>,
    userInfo: Option<string>,
    host: Option<string>,
    port: Int32,
    path: Option<string>,
    query: Option<string>,
    fragment: Option<string>)

  /** The same URI with its scheme replaced, everything else kept. */
  predicate SameButScheme(a: Uri, b: Uri) {
    && a.userInfo == b.userInfo
    && a.host == b.host
    && a.port == b.port
    && a.path == b.path
    && a.query == b.query
    && a.fragment == b.fragment
  }

  /**
   * The fallback signal: the decimal text of the port ends in "443". For a
   * non-negative port this is exactly `port % 1000 == 443`; for a negative one
   * the sign is skipped, so -443 and -8443 pass too.
   */
  lemma PortTextEndsWith443(port: int)
    ensures EndsWith(IntToString(port), SecurePortSuffix) <==> Abs(port) % 1000 == 443
  {
    var digits := NatToString(Abs(port));
    NatTextEndsWith443(Abs(port));
    if port < 0 {
      var s := IntToString(port);
      assert s == "-" + digits;
      if |digits| >= 3 {
        assert s[|s| - 3..] == digits[|digits| - 3..];
      } else if |digits| == 2 {
        assert s[|s| - 3..][0] == '-';
      }
    }
  }

  lemma NatTextEndsWith443(n: nat)
    ensures EndsWith(NatToString(n), SecurePortSuffix) <==> n % 1000 == 443
  {
    ModThousandDigits(n);
    if n < 100 {
      NatToStringShort(n);
    } else {
      NatToStringLastThree(n);
      var s := NatToString(n);
      var last := [DigitChar(n / 10 / 10 % 10), DigitChar(n / 10 % 10), DigitChar(n % 10)];
      assert s[|s| - 3..] == last;
      assert last == SecurePortSuffix <==> n / 10 / 10 % 10 == 4 && n / 10 % 10 == 4 && n % 10 == 3;
    }
  }

  /** For the usual, non-negative ports the heuristic is a remainder test. */
  lemma NonNegativePortTextEndsWith443(port: int)
    requires port >= 0
    ensures EndsWith(IntToString(port), SecurePortSuffix) <==> port % 1000 == 443
  {
    PortTextEndsWith443(port);
  }

  /**
   * OverrideRestClient.isSecure. `discoveryOnClasspath` stands for whether the
   * DiscoveryEnabledServer class can be loaded; only then is a discovery
   * server's own flag consulted, otherwise (and for every other server) the
   * port-text heuristic decides.
   */
  function IsSecure(server: Server, discoveryOnClasspath: bool): (secure: bool)
    ensures discoveryOnClasspath && server.DiscoveryEnabled? ==> (secure <==> server.securePortEnabled)
    ensures !(discoveryOnClasspath && server.DiscoveryEnabled?) ==> (secure <==> Abs(server.port as int) % 1000 == 443)
  {
    if discoveryOnClasspath && server.DiscoveryEnabled? then
      server.securePortEnabled
    else
      PortTextEndsWith443(server.port as int);
      EndsWith(IntToString(server.port as int), SecurePortSuffix)
  }

  /**
   * The scheme step of OverrideRestClient.reconstructURIWithServer: a URI whose
   * scheme is not exactly "https" (the comparison is case-sensitive and a
   * missing scheme is not "https") becomes "https" when the server is secure.
   */
  function UpgradeScheme(server: Server, uri: Uri, discoveryOnClasspath: bool): (r: Uri)
    ensures uri.scheme == Some(Https) ==> r == uri
    ensures !IsSecure(server, discoveryOnClasspath) ==> r == uri
    ensures uri.scheme != Some(Https) && IsSecure(server, discoveryOnClasspath) ==> r.scheme == Some(Https)
    ensures SameButScheme(r, uri)
    ensures r.scheme == uri.scheme || r.scheme == Some(Https)
    ensures r.scheme == Some(Https) <==> uri.scheme == Some(Https) || IsSecure(server, discoveryOnClasspath)
    ensures r != uri <==> uri.scheme != Some(Https) && IsSecure(server, discoveryOnClasspath)
  {
    if uri.scheme != Some(Https) && IsSecure(server, discoveryOnClasspath) then
      uri.(scheme := Some(Https))
    else
      uri
  }

  /** Upgrading twice is upgrading once. */
  lemma UpgradeSchemeIdempotent(server: Server, uri: Uri, discoveryOnClasspath: bool)
    ensures var once := UpgradeScheme(server, uri, discoveryOnClasspath);
      UpgradeScheme(server, once, discoveryOnClasspath) == once
  {
  }

  /**
   * OverrideRestClient.reconstructURIWithServer. `superReconstruct` is the
   * inherited RestClient.reconstructURIWithServer, which substitutes the
   * server's host and port; it is not part of this model and is taken as
   * given.
   */
  function ReconstructURIWithServer(
    server: Server, original: Uri, discoveryOnClasspath: bool,
    superReconstruct: (Server, Uri) -> Uri): (r: Uri)
    ensures original.scheme == Some(Https) ==> r == superReconstruct(server, original)
    ensures !IsSecure(server, discoveryOnClasspath) ==> r == superReconstruct(server, original)
    ensures original.scheme != Some(Https) && IsSecure(server, discoveryOnClasspath) ==>
      r == superReconstruct(server, original.(scheme := Some(Https)))
  {
    superReconstruct(server, UpgradeScheme(server, original, discoveryOnClasspath))
  }

  /**
   * Whenever the inherited rewrite keeps the scheme it is given, the URI that
   * comes out is never downgraded: its scheme is the original one or "https",
   * and it is "https" exactly when the original was or the server is secure.
   */
  lemma ReconstructNeverDowngrades(
    server: Server, original: Uri, discoveryOnClasspath: bool,
    superReconstruct: (Server, Uri) -> Uri)
    requires forall s, u :: superReconstruct(s, u).scheme == u.scheme
    ensures var r := ReconstructURIWithServer(server, original, discoveryOnClasspath, superReconstruct);
      && (r.scheme == original.scheme || r.scheme == Some(Https))
      && (r.scheme == Some(Https) <==> original.scheme == Some(Https) || IsSecure(server, discoveryOnClasspath))
  {
    var up := UpgradeScheme(server, original, discoveryOnClasspath);
    assert superReconstruct(server, up).scheme == up.scheme;
  }

  /** Which ports the fallback heuristic takes as secure, on the usual examples. */
  lemma {:induction false} PortHeuristicExamples(host: string)
    ensures IsSecure(Plain(host, 443), true)
    ensures IsSecure(Plain(host, 8443), true)
    ensures IsSecure(Plain(host, 1443), true)
    ensures !IsSecure(Plain(host, 80), true)
    ensures !IsSecure(Plain(host, 8080), true)
    ensures !IsSecure(Plain(host, 4430), true)
    ensures !IsSecure(Plain(host, 43), true)
  {
    var secure := [443, 8443, 1443];
    var plain := [80, 8080, 4430, 43];
    forall p: Int32 | p in secure ensures IsSecure(Plain(host, p), true) {
      assert Abs(p as int) % 1000 == 443;
    }
    forall p: Int32 | p in plain ensures !IsSecure(Plain(host, p), true) {
      assert Abs(p as int) % 1000 != 443;
    }
  }

  /** A discovery server's flag overrides its port number, whatever that is. */
  lemma DiscoveryFlagOverridesPort(host: string, port: Int32)
    ensures !IsSecure(DiscoveryEnabled(host, 443, false), true)
    ensures IsSecure(DiscoveryEnabled(host, 80, true), true)
    ensures IsSecure(DiscoveryEnabled(host, port, true), true)
    ensures !IsSecure(DiscoveryEnabled(host, port, false), true)
  {
  }

  /**
   * Without the discovery class on the classpath, a discovery server is judged
   * by its port like any other.
   */
  lemma DiscoveryAbsentUsesPort(host: string, port: Int32, flag: bool)
    ensures IsSecure(DiscoveryEnabled(host, port, flag), false) == IsSecure(Plain(host, port), true)
  {
  }

  /**
   * A plain "http" request sent to a server on port 8443 without discovery
   * metadata goes out as "https"; an "HTTPS" request is rewritten to the
   * lower-case scheme; an "https" request is left alone even for port 80.
   */
  lemma SchemeUpgradeExamples(uri: Uri, host: string)
    ensures UpgradeScheme(Plain(host, 8443), uri.(scheme := Some("http")), true).scheme == Some(Https)
    ensures UpgradeScheme(Plain(host, 443), uri.(scheme := Some("HTTPS")), true).scheme == Some(Https)
    ensures UpgradeScheme(Plain(host, 443), uri.(scheme := None), true).scheme == Some(Https)
    ensures UpgradeScheme(DiscoveryEnabled(host, 80, false), uri.(scheme := Some(Https)), true) == uri.(scheme := Some(Https))
  {
    assert IsSecure(Plain(host, 8443), true) by {
      assert Abs(8443) % 1000 == 443;
    }
    assert IsSecure(Plain(host, 443), true) by {
      assert Abs(443) % 1000 == 443;
    }
    assert Some("HTTPS") != Some(Https) by {
      assert "HTTPS"[0] != Https[0];
    }
    assert Some("http") != Some(Https) by {
      assert |"http"| != |Https|;
    }
  }

}
