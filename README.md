# Diskless-boot script route

A model of the boot-script route of a network-boot provisioning server. A
client machine running iPXE requests `/<MAC address>/boot.ipxe`. The server
looks the MAC address up in its user map. If the machine has an identity,
the server answers with a four-line iPXE script. The script boots a shared
kernel and initrd and passes the identity on the kernel command line as
`systemd.setenv=DISKLESS_HOME_NAME=<identity>`. Any other machine gets a 404
with an empty body.

The model is pure, as the handler is: datatypes, functions and lemmas.

- `wrappers.dfy`: `Wrappers.Option`, the result of a lookup that may find nothing.
- `boot_script.dfy`: module `BootScript`. The script generator `Generate` and its
  inverse `Strip`. Line splitting (`Lines`, with `Unlines` as its inverse) is used
  to state the script's four-line shape. It also proves that the identity
  parameter `DISKLESS_HOME_NAME=` occurs exactly once in the script when the
  identity does not itself contain that text.
- `boot_route.dfy`: module `BootRoute`. The user map (`Registry`, a
  `map<string, string>` passed in as a value), the verbatim lookup, JavaScript
  truthiness, the handler `ServeBootScript`, the path pattern
  `/:mac_addr/boot.ipxe` (`MatchBootPath`, with `BootPath` as its inverse) and
  the GET route `Route`.

The user map is a constant that nothing writes. In the model every function
takes it as an immutable argument, so handling a request cannot change it.
The map in the repository is empty. The model covers every map.

Behaviour worth noting:

- Truthiness: the handler tests the looked-up value for truthiness, not for
  presence. A MAC address mapped to the empty string therefore gets a 404, like
  an unregistered one (`EmptyIdentityIsUnregistered`).
- Logging: the code has no request logger, so none is modelled.
- Identity validation: the code does not validate identities before putting
  them on the kernel command line. `Generate` accepts any string. The
  single-line and single-occurrence lemmas name their conditions on the
  identity as preconditions.

## Model

| member | source | states |
|---|---|---|
| `BootScript.Generate` | server/http/index.js:20-25 | The script is the fixed template text before the identity, then the identity verbatim, then the fixed text after it. Nothing else varies. |
| `BootScript.Strip` | server/http/index.js:20-25 | Reads the identity back out of a script. Whenever it returns an identity, generating the script for that identity gives back exactly the text it was given. |
| `BootScript.StripGenerate` | server/http/index.js:22 | Round trip: stripping the template from a generated script returns the identity it was generated for. |
| `BootScript.GenerateInjective` | server/http/index.js:20-25 | Two identities that give the same script are the same identity. |
| `BootScript.ScriptLines` | server/http/index.js:21-24 | For an identity without a line feed, the script has exactly four lines: `#!ipxe`, the kernel line carrying `DISKLESS_HOME_NAME=<identity>`, `initrd /boot/initrd.img` and `boot`. |
| `BootScript.MarkerOccursOnce` | server/http/index.js:22 | `DISKLESS_HOME_NAME=` occurs in the script exactly once, right before the identity, unless the identity itself contains that text. |
| `BootRoute.Lookup` | server/http/index.js:17 | The lookup finds a value exactly when the raw path parameter is a key of the user map, and that value is the entry's. There is no normalisation of the key. |
| `BootRoute.ServeBootScript` | server/http/index.js:17-28 | The status is 200 or 404. It is 200 exactly when the MAC address is in the map with a non-empty identity, and then the body is that identity's script. A 404 has an empty body. |
| `BootRoute.RegisteredMachineBoots` | server/http/index.js:17-25 | A machine registered with a non-empty one-line identity gets status 200 and the four-line script whose kernel line carries its identity. |
| `BootRoute.EmptyIdentityIsUnregistered` | server/http/index.js:19-28 | An entry with an empty identity gets the same response as a missing entry: 404 with an empty body. |
| `BootRoute.OnlyTheRequestedEntryMatters` | server/http/index.js:7-17 | Two user maps that agree on the requested key give the same response. No other entry plays a part. |
| `BootRoute.MatchBootPath` | server/http/index.js:16 | A matched path yields a non-empty parameter without `/`, and the path is exactly `/<parameter>/boot.ipxe`. |
| `BootRoute.MatchBootPathOfBootPath` | server/http/index.js:16 | The matcher returns exactly the segment that a boot path was built from. |
| `BootRoute.MatchBootPathIff` | server/http/index.js:16 | A path matches with parameter `mac` if and only if `mac` is one segment and the path is `/<mac>/boot.ipxe`. |
| `BootRoute.Route` | server/http/index.js:16-29 | The route answers only GET requests. Its answer is the handler's response for some single segment whose boot path is the request path. |
| `BootRoute.RouteAnswersBootPaths` | server/http/index.js:16-17 | For the boot path of a segment, a GET is answered with the handler's response for that segment, used as the lookup key. Any other method is not answered. |
| `BootRoute.RouteAnswersIff` | server/http/index.js:16 | The route answers a request if and only if it is a GET of `/<segment>/boot.ipxe`. |
| `BootRoute.ExampleRegisteredMachine` | server/http/index.js:16-25 | With `AA:BB:CC:DD:EE:FF` mapped to `alice`, a GET of its boot path gets 200. The second line of the body is the kernel line with `DISKLESS_HOME_NAME=alice`. |
| `BootRoute.ExampleUnknownMachine` | server/http/index.js:26-28 | With the same map, `00:00:00:00:00:00` gets 404 with an empty body. |
| `BootRoute.ExampleNoNormalisation` | server/http/index.js:17 | The registered address `AA:BB:CC:DD:EE:FF` gets 200, but the same address written in lower case is a different key and gets 404 with an empty body. |

## Left out

- HTTP transport, the restana framework and listening on port 3000 (server/http/index.js:14, 32) are foreign library code and socket I/O. `Route` returns `None` where the framework would pass the request on.
- Static file serving of `/srv/client_root/boot` under `/boot` (server/http/index.js:30) is file-system I/O in a third-party library. Its ordering relative to the route is not modelled either.
- BootScript.Generate: the identity is put into the template before `dedent` runs, and the `dedent` algorithm is not visible. The model assumes that `dedent` leaves a one-line identity untouched and strips only the template's indentation, giving the constant text before and after the identity. Any re-indentation `dedent` could apply to an identity containing a line feed, and any rewriting of escape sequences (such as a literal backslash-n) inside the identity, is not modelled.
- Response headers: the handler sets no `Content-Type` itself. Headers that the framework's `res.send` may add are not modelled; a response is its status and body only.
- BootRoute.Lookup: the user map is modelled as a `map<string, string>`. Two JavaScript object quirks are not modelled: keys inherited from the object prototype (such as `constructor`), and values that are not strings.
- BootRoute.MatchBootPath: the path is taken as the router passes it. The router library is not visible, so its percent-decoding of parameters, its stripping of query strings and its trailing-slash and HEAD handling are not modelled.
- Request logging: the code has no logger, so there is nothing to model.
