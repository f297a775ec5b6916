/**
 * The `/:mac_addr/boot.ipxe` route of the diskless-boot server
 * (server/http/index.js:16-29): the MAC address in the request path is
 * looked up verbatim in the user map, and a machine with a non-empty
 * identity gets its boot script while every other machine gets 404.
 *
 * The user map is a constant of the server (server/http/index.js:7-9); here
 * it is a value passed to every function, so handling a request cannot
 * change it.
 */
module BootRoute {

  import opened Wrappers
  import opened BootScript

  /** The user map: MAC address, exactly as written in the path, to identity. */
  type Registry = map<string, string>

  /** What the handler sends: an HTTP status and a body. */
  datatype Response = Response(status: nat, body: string)

  const Ok: nat := 200
  const NotFound: nat := 404

  /**
   * `USER_MAP[mac]`: the identity stored under exactly this key, or None
   * (JavaScript's `undefined`) when there is none. There is no case or
   * format normalisation of the key.
   */
  function Lookup(registry: Registry, mac: string): (user: Option<string>)
    ensures user.Some? <==> mac in registry
    ensures user.Some? ==> user.value == registry[mac]
  {
    if mac in registry then Some(registry[mac]) else None
  }

  /** JavaScript truthiness of a looked-up string: present and non-empty. */
  predicate Truthy(user: Option<string>)
  {
    user.Some? && user.value != ""
  }

  /**
   * The route handler for the MAC address `mac`: 200 with the boot script
   * for a machine with a non-empty identity, 404 with an empty body for an
   * unknown machine or one whose identity is empty.
   */
  function ServeBootScript(registry: Registry, mac: string): (r: Response)
    ensures r.status == Ok || r.status == NotFound
    ensures r.status == Ok <==> mac in registry && registry[mac] != ""
    ensures r.status == Ok ==> r.body == Generate(registry[mac]) && Strip(r.body) == Some(registry[mac])
    ensures r.status == NotFound ==> r.body == ""
  {
    var user := Lookup(registry, mac);
    if Truthy(user) then
      StripGenerate(user.value);
      Response(Ok, Generate(user.value))
    else
      Response(NotFound, "")
  }

  /**
   * A registered machine with a one-line identity gets the four-line script
   * whose kernel line carries its identity.
   */
  lemma RegisteredMachineBoots(registry: Registry, mac: string)
    requires mac in registry && registry[mac] != "" && '\n' !in registry[mac]
    ensures ServeBootScript(registry, mac).status == Ok
    ensures Lines(ServeBootScript(registry, mac).body)
         == [Shebang, KernelLine(registry[mac]), InitrdLine, BootLine]
  {
    ScriptLines(registry[mac]);
  }

  /** An entry whose identity is empty is refused exactly like a missing one. */
  lemma EmptyIdentityIsUnregistered(registry: Registry, mac: string)
    requires mac in registry && registry[mac] == ""
    ensures ServeBootScript(registry, mac) == ServeBootScript(registry - {mac}, mac)
    ensures ServeBootScript(registry, mac) == Response(NotFound, "")
  {
  }

  /**
   * The response depends on the registry only through the entry for the
   * requested key: other entries, whatever they are, play no part.
   */
  lemma OnlyTheRequestedEntryMatters(registry: Registry, other: Registry, mac: string)
    requires mac in registry <==> mac in other
    requires mac in registry ==> registry[mac] == other[mac]
    ensures ServeBootScript(registry, mac) == ServeBootScript(other, mac)
  {
  }

  /** The file name the route ends with. */
  const BootFile: string := "boot.ipxe"

  /** A route parameter: one non-empty path segment. */
  predicate IsSegment(mac: string)
  {
    mac != "" && '/' !in mac
  }

  /** The request path `/<mac>/boot.ipxe`. */
  function BootPath(mac: string): (path: string)
  {
    "/" + mac + "/" + BootFile
  }

  /**
   * Matching of the pattern `/:mac_addr/boot.ipxe`: the single segment
   * before `/boot.ipxe`, or None when the path has another shape.
   */
  function MatchBootPath(path: string): (mac: Option<string>)
    ensures mac.Some? ==> IsSegment(mac.value) && BootPath(mac.value) == path
  {
    var tail := "/" + BootFile;
    if |path| > 1 + |tail| && path[0] == '/' && path[|path| - |tail|..] == tail
       && '/' !in path[1..|path| - |tail|]
    then
      var mac := path[1..|path| - |tail|];
      assert path == [path[0]] + mac + path[|path| - |tail|..];
      Some(mac)
    else
      None
  }

  /** The matcher gives back exactly the segment a boot path was built from. */
  lemma MatchBootPathOfBootPath(mac: string)
    requires IsSegment(mac)
    ensures MatchBootPath(BootPath(mac)) == Some(mac)
  {
    var path := BootPath(mac);
    assert path[1..|path| - |"/" + BootFile|] == mac;
  }

  /** A path matches with parameter `mac` if and only if it is mac's boot path. */
  lemma MatchBootPathIff(path: string, mac: string)
    ensures MatchBootPath(path) == Some(mac) <==> IsSegment(mac) && path == BootPath(mac)
  {
    if IsSegment(mac) && path == BootPath(mac) {
      MatchBootPathOfBootPath(mac);
    }
  }

  /** An HTTP request as the router sees it: its method and its path. */
  datatype Request = Request(verb: string, path: string)

  /**
   * The route registered with `service.get`: a GET request whose path
   * matches the pattern is answered by the handler with the path's segment
   * as the lookup key; any other request is not this route's (None) and
   * goes on to the static file mount or the router's default answer.
   */
  function Route(registry: Registry, request: Request): (r: Option<Response>)
    ensures r.Some? ==> request.verb == "GET"
    ensures r.Some? ==> exists mac :: IsSegment(mac) && request.path == BootPath(mac)
                                      && r.value == ServeBootScript(registry, mac)
  {
    match MatchBootPath(request.path)
    case Some(mac) =>
      if request.verb == "GET" then Some(ServeBootScript(registry, mac)) else None
    case None => None
  }

  /**
   * The route answers exactly the GET requests for a boot path, and uses
   * the path's one segment, and nothing else, as the registry key.
   */
  lemma RouteAnswersBootPaths(registry: Registry, request: Request, mac: string)
    requires IsSegment(mac) && request.path == BootPath(mac)
    ensures Route(registry, request) == if request.verb == "GET" then Some(ServeBootScript(registry, mac)) else None
  {
    MatchBootPathOfBootPath(mac);
  }

  /** The route answers a request if and only if it is a GET of a boot path. */
  lemma RouteAnswersIff(registry: Registry, request: Request)
    ensures Route(registry, request).Some?
        <==> request.verb == "GET" && exists mac :: IsSegment(mac) && request.path == BootPath(mac)
  {
    if request.verb == "GET" && exists mac :: IsSegment(mac) && request.path == BootPath(mac) {
      var mac :| IsSegment(mac) && request.path == BootPath(mac);
      RouteAnswersBootPaths(registry, request, mac);
    }
  }

  /** A registry with one machine, used by the examples below. */
  const AliceRegistry: Registry := map["AA:BB:CC:DD:EE:FF" := "alice"]

  /** The registered machine boots with its identity on the kernel line. */
  lemma ExampleRegisteredMachine()
    ensures var r := Route(AliceRegistry, Request("GET", "/AA:BB:CC:DD:EE:FF/boot.ipxe"));
      && r.Some? && r.value.status == Ok
      && Lines(r.value.body)[1]
         == "kernel /boot/vmlinuz initrd=initrd.img " + "overlayroot=tmpfs:recurse=0 "
            + "systemd.setenv=" + "DISKLESS_HOME_NAME=alice" + " quiet splash vt.handoff=7"
  {
    var mac := "AA:BB:CC:DD:EE:FF";
    assert BootPath(mac) == "/AA:BB:CC:DD:EE:FF/boot.ipxe";
    RouteAnswersBootPaths(AliceRegistry, Request("GET", BootPath(mac)), mac);
    RegisteredMachineBoots(AliceRegistry, mac);
    AliceKernelLine();
  }

  lemma AliceKernelLine()
    ensures KernelLine("alice")
         == "kernel /boot/vmlinuz initrd=initrd.img " + "overlayroot=tmpfs:recurse=0 "
            + "systemd.setenv=" + "DISKLESS_HOME_NAME=alice" + " quiet splash vt.handoff=7"
  {
    assert Marker + "alice" == "DISKLESS_HOME_NAME=alice";
  }

  /** An unknown machine gets 404 with an empty body. */
  lemma ExampleUnknownMachine()
    ensures Route(AliceRegistry, Request("GET", "/00:00:00:00:00:00/boot.ipxe")) == Some(Response(NotFound, ""))
  {
    var mac := "00:00:00:00:00:00";
    assert BootPath(mac) == "/00:00:00:00:00:00/boot.ipxe";
    RouteAnswersBootPaths(AliceRegistry, Request("GET", BootPath(mac)), mac);
  }

  /**
   * The registered address boots, but the same address in lower case is a
   * different key and is refused.
   */
  lemma ExampleNoNormalisation()
    ensures var r := Route(AliceRegistry, Request("GET", "/AA:BB:CC:DD:EE:FF/boot.ipxe"));
      r.Some? && r.value.status == Ok
    ensures Route(AliceRegistry, Request("GET", "/aa:bb:cc:dd:ee:ff/boot.ipxe")) == Some(Response(NotFound, ""))
  {
    var mac := "aa:bb:cc:dd:ee:ff";
    assert BootPath(mac) == "/aa:bb:cc:dd:ee:ff/boot.ipxe";
    RouteAnswersBootPaths(AliceRegistry, Request("GET", BootPath(mac)), mac);
    ExampleRegisteredMachine();
  }
}
