# Ribbon secure-scheme upgrade

This project models the one piece of logic in Spring Cloud Netflix's
`RibbonClientConfiguration`. That piece is the nested `OverrideRestClient` rule.
Before a request is retargeted at the server the load balancer chose, the rule
may upgrade the request's scheme to `https`.

- `IsSecure` decides whether a server is secure.
  - For a discovery-enabled server, when the `DiscoveryEnabledServer` class is
    on the classpath, the answer is the server's secure-port-enabled flag.
  - Otherwise the answer is whether the decimal text of the port ends in `"443"`.
- `UpgradeScheme` sets the scheme to `"https"` only when the scheme is not
  already exactly `"https"` and the server is secure. Nothing else in the URI
  changes.
- `ReconstructURIWithServer` hands the result to the inherited host/port
  rewrite.

Module `JavaText` models the two pieces of `java.lang` that the heuristic uses:
`"" + port`, which is the Java `int` as decimal text, and `String.endsWith`.

Choices made in the model:

- The runtime class-presence probe becomes the boolean parameter
  `discoveryOnClasspath`.
- The `instanceof` test becomes a match on the `Server` variant.
- The inherited `RestClient.reconstructURIWithServer` becomes the function
  parameter `superReconstruct`.
- A null URI component becomes `None`.
- The port is a 32-bit `Int32`.

Main results:

- For every port, the heuristic holds exactly when `|port| % 1000 == 443`.
- For a non-negative port, that means `port % 1000 == 443`.
- A negative port such as -443 also counts as secure, because the minus sign is
  not part of the last three characters.
- The upgrade goes only one way. It is idempotent. It never touches any
  component other than the scheme.

## Model

| member | source | states |
|---|---|---|
| `JavaText.NatToString` | spring-cloud-netflix-core/src/main/java/org/springframework/cloud/netflix/ribbon/RibbonClientConfiguration.java:168 | the decimal text of a non-negative number is one or more digits, with no leading zero unless it is "0", and it ends in the units digit |
| `JavaText.IntToString` | spring-cloud-netflix-core/src/main/java/org/springframework/cloud/netflix/ribbon/RibbonClientConfiguration.java:168 | `"" + port` is well-formed decimal text; it starts with '-' exactly for negative values, and after the sign it is the digits of the absolute value |
| `JavaText.NatToStringRoundTrip` | spring-cloud-netflix-core/src/main/java/org/springframework/cloud/netflix/ribbon/RibbonClientConfiguration.java:168 | reading the digits back gives the number |
| `JavaText.IntToStringRoundTrip` | spring-cloud-netflix-core/src/main/java/org/springframework/cloud/netflix/ribbon/RibbonClientConfiguration.java:168 | parsing the text of an int, sign included, gives the int back |
| `JavaText.EndsWith` | spring-cloud-netflix-core/src/main/java/org/springframework/cloud/netflix/ribbon/RibbonClientConfiguration.java:168 | `s.endsWith(suffix)`: the suffix is no longer than `s` and equals its last characters; this holds exactly when `s` is some prefix followed by the suffix |
| `JavaText.NatToStringLastThree` | spring-cloud-netflix-core/src/main/java/org/springframework/cloud/netflix/ribbon/RibbonClientConfiguration.java:168 | for n >= 100, the last three characters of the text are the hundreds, tens and units digits of n |
| `RibbonClientConfiguration.NatTextEndsWith443` | spring-cloud-netflix-core/src/main/java/org/springframework/cloud/netflix/ribbon/RibbonClientConfiguration.java:168 | the text of a non-negative n ends in "443" exactly when n % 1000 == 443 |
| `RibbonClientConfiguration.PortTextEndsWith443` | spring-cloud-netflix-core/src/main/java/org/springframework/cloud/netflix/ribbon/RibbonClientConfiguration.java:168 | for any port, sign included, the text ends in "443" exactly when the absolute value is 443 modulo 1000 |
| `RibbonClientConfiguration.NonNegativePortTextEndsWith443` | spring-cloud-netflix-core/src/main/java/org/springframework/cloud/netflix/ribbon/RibbonClientConfiguration.java:168 | for port >= 0, the text ends in "443" exactly when port % 1000 == 443 |
| `RibbonClientConfiguration.IsSecure` | spring-cloud-netflix-core/src/main/java/org/springframework/cloud/netflix/ribbon/RibbonClientConfiguration.java:159-169 | with the discovery class present, a discovery server is secure exactly when its flag is set, whatever its port; every other server is secure exactly when its port is 443 modulo 1000 in absolute value |
| `RibbonClientConfiguration.UpgradeScheme` | spring-cloud-netflix-core/src/main/java/org/springframework/cloud/netflix/ribbon/RibbonClientConfiguration.java:152-155 | an "https" URI is unchanged; a URI for an insecure server is unchanged; otherwise the scheme becomes "https", including a missing scheme or "HTTPS". Only the scheme ever changes. The new scheme is the old one or "https", and it is "https" exactly when the old one was or the server is secure. The URI changes exactly when its scheme was not "https" and the server is secure |
| `RibbonClientConfiguration.UpgradeSchemeIdempotent` | spring-cloud-netflix-core/src/main/java/org/springframework/cloud/netflix/ribbon/RibbonClientConfiguration.java:153-154 | applying the upgrade to its own result changes nothing |
| `RibbonClientConfiguration.ReconstructURIWithServer` | spring-cloud-netflix-core/src/main/java/org/springframework/cloud/netflix/ribbon/RibbonClientConfiguration.java:150-157 | the inherited rewrite receives the original URI when its scheme is "https" or the server is insecure; otherwise it receives the original with its scheme set to "https" |
| `RibbonClientConfiguration.ReconstructNeverDowngrades` | spring-cloud-netflix-core/src/main/java/org/springframework/cloud/netflix/ribbon/RibbonClientConfiguration.java:151-156 | if the inherited rewrite keeps the scheme it is given, the final scheme is the original or "https", and it is "https" exactly when the original was or the server is secure |
| `RibbonClientConfiguration.PortHeuristicExamples` | spring-cloud-netflix-core/src/main/java/org/springframework/cloud/netflix/ribbon/RibbonClientConfiguration.java:168 | ports 443, 8443 and 1443 are secure; ports 80, 8080, 4430 and 43 are not |
| `RibbonClientConfiguration.DiscoveryFlagOverridesPort` | spring-cloud-netflix-core/src/main/java/org/springframework/cloud/netflix/ribbon/RibbonClientConfiguration.java:160-165 | a discovery server with the flag off is not secure even on port 443; one with the flag on is secure even on port 80 |
| `RibbonClientConfiguration.DiscoveryAbsentUsesPort` | spring-cloud-netflix-core/src/main/java/org/springframework/cloud/netflix/ribbon/RibbonClientConfiguration.java:160-168 | without the discovery class, a discovery server is judged by its port like a plain server |
| `RibbonClientConfiguration.SchemeUpgradeExamples` | spring-cloud-netflix-core/src/main/java/org/springframework/cloud/netflix/ribbon/RibbonClientConfiguration.java:152-155 | "http" to port 8443 becomes "https"; "HTTPS" and a missing scheme to port 443 become "https"; an "https" URI to a discovery server with the flag off on port 80 is unchanged |

## Left out

- The `@Bean` factory methods (lines 66-141) are left out. They are dependency-injection wiring that builds library classes and has no logic of its own. That includes the client config, rule, ping, server list, load balancer, filter and load-balancer context.
- The zone-avoidance rule, zone-preference filter, configuration-based server list, no-op ping and zone-aware load balancer are left out. They are library classes whose code is not part of this model. Their selection, filtering, refresh and concurrency behaviour is not modelled.
- `super.reconstructURIWithServer` (line 156) is Ribbon's host/port substitution. It is not part of this model, so it is the arbitrary function parameter `superReconstruct`.
- The two arguments of `reconstructURIWithServer`, `server` and `original`, are non-null references in the model. The NullPointerException that a null `original` raises at line 152, and the one that a null `server` raises at `server.getPort()` on line 168 when the scheme is not "https", are not modelled.
- `ClassUtils.isPresent` (line 160) is classpath reflection. It is the boolean parameter `discoveryOnClasspath`.
- `InstanceInfo.isPortEnabled(PortType.SECURE)` (line 164) is reduced to the `securePortEnabled` flag of a `DiscoveryEnabled` server.
- `UpgradeScheme`: `UriComponentsBuilder.fromUri(...).scheme("https").build().toUri()` (line 154) is modelled as replacing the scheme component. The model works on already-parsed components, so it does not capture any re-encoding or re-parsing the builder might do to the other components. It also does not capture opaque (scheme-specific-part) URIs.
- `DefaultClientConfigImpl.loadProperties` (configuration loading), `Monitors.registerObject` (metrics) and `apacheHttpClientSpecificInitialization` (HTTP transport and cookie policy, lines 171-180) are I/O and setup, so they are left out.
