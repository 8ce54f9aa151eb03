/**
 * The firmware side of XAP: a received packet carries a 2-byte token and
 * then one identifier byte per level of a static tree of route tables;
 * the dispatcher descends through routers and ends by calling a handler,
 * answering with a failure response, or doing nothing.
 */
module Xap {
  import opened Wrappers

  newtype uint8 = x: int | 0 <= x < 0x100
  newtype uint16 = x: int | 0 <= x < 0x1_0000

  // ---------------------------------------------------------------------
  // Route tables

  /** The handlers the static tables point at. */
  datatype Handler = XapRouteVersionHandler | QmkCapsQueryHandler | QmkRouteVersionHandler

  /**
   * One `xap_route_t`: its 2-bit type selects which half of the union is
   * meaningful. A `None` handler is a NULL function pointer.
   */
  datatype Route =
    | Unrouted(isSecure: bool)  // XAP_UNKNOWN, or the fourth value the 2-bit type field can hold
    | Router(isSecure: bool, childRoutes: ChildTable, childRoutesLen: uint8)  // XAP_ROUTE
    | Execute(isSecure: bool, handler: Option<Handler>)  // XAP_EXECUTE

  /** The `child_routes` pointer: NULL, or the first entry of a table. */
  datatype ChildTable = Null | Table(entries: seq<Route>)

  /** Every router's `child_routes_len` stays within its child table, at every level below `r`. */
  predicate WellFormedRoute(r: Route) {
    match r
    case Router(_, Table(children), len) => len as int <= |children| && forall c :: c in children ==> WellFormedRoute(c)
    case _ => true
  }

  predicate WellFormed(routes: seq<Route>) {
    forall r :: r in routes ==> WellFormedRoute(r)
  }

  /** `sizeof(t) / sizeof(t[0])` stored into the `uint8_t` field `child_routes_len`. */
  function SizeofLen(t: seq<Route>): (len: uint8)
    ensures len as int <= |t|
    ensures |t| < 0x100 ==> len as int == |t|
  {
    (|t| % 0x100) as uint8
  }

  const XAP_SUBSYSTEM_XAP: uint8 := 0x00
  const XAP_SUBSYSTEM_XAP_ROUTE_VERSION: uint8 := 0x00
  const XAP_SUBSYSTEM_QMK: uint8 := 0x01
  const XAP_SUBSYSTEM_QMK_CAPABILITIES_QUERY: uint8 := 0x00
  const XAP_SUBSYSTEM_QMK_ROUTE_VERSION: uint8 := 0x01
  const XAP_SUBSYSTEM_KEYBOARD: uint8 := 0x02
  const XAP_SUBSYSTEM_USER: uint8 := 0x03

  /** `xap_routes`: slot XAP_SUBSYSTEM_XAP_ROUTE_VERSION. */
  const XAP_ROUTES: seq<Route> := [Execute(false, Some(XapRouteVersionHandler))]

  /** `qmk_routes`: slots XAP_SUBSYSTEM_QMK_CAPABILITIES_QUERY and XAP_SUBSYSTEM_QMK_ROUTE_VERSION. */
  const QMK_ROUTES: seq<Route> := [Execute(false, Some(QmkCapsQueryHandler)), Execute(false, Some(QmkRouteVersionHandler))]

  /** `root_routes`: slots XAP_SUBSYSTEM_XAP and XAP_SUBSYSTEM_QMK. */
  const ROOT_ROUTES: seq<Route> := [
    Router(false, Table(XAP_ROUTES), SizeofLen(XAP_ROUTES)),
    Router(false, Table(QMK_ROUTES), SizeofLen(QMK_ROUTES))
  ]

  // ---------------------------------------------------------------------
  // Dispatch

  /** What one call of the dispatcher ends up doing. */
  datatype Outcome =
    | Ignored  // returns without sending anything
    | FailureResponse(token: uint16)  // `xap_respond_failure(token)`
    | HandlerCall(handler: Handler, token: uint16, data: seq<uint8>)  // the handler gets `&data[1]`, `data_len - 1`
    | ReadPastEnd  // `data_len` is 0: `data[0]` is read past the end and `data_len - 1` wraps around

  /** A router the dispatcher descends into: its child pointer is set and its length is positive. */
  predicate Descends(r: Route) {
    r.Router? && r.childRoutes.Table? && r.childRoutesLen > 0
  }

  /** What the dispatcher does on reaching an entry it does not descend into, with `rest` the bytes after its id. */
  function Act(r: Route, token: uint16, rest: seq<uint8>): (o: Outcome)
    ensures o == Ignored <==> (r.Router? || (r.Execute? && r.handler.None?))
    ensures o.FailureResponse? <==> r.Unrouted?
    ensures o.HandlerCall? ==> r == Execute(r.isSecure, Some(o.handler)) && o.data == rest
    ensures r.Execute? && r.handler.Some? ==> o == HandlerCall(r.handler.value, token, rest)
    ensures o.HandlerCall? || o.FailureResponse? ==> o.token == token
  {
    match r
    case Router(_, _, _) => Ignored
    case Execute(_, handler) => if handler.Some? then HandlerCall(handler.value, token, rest) else Ignored
    case Unrouted(_) => FailureResponse(token)
  }

  /**
   * `xap_execute_route(token, routes, max_routes, data, data_len)`, with
   * `data_len` the length of `data`: the entry at id `data[0]`, when below
   * `max_routes`, is descended into, executed, or answered with a failure.
   */
  function ExecuteRoute(token: uint16, routes: seq<Route>, maxRoutes: nat, data: seq<uint8>): (o: Outcome)
    requires maxRoutes <= |routes| && WellFormed(routes)
    ensures o.HandlerCall? ==> o.token == token && |o.data| < |data| && o.data == data[|data| - |o.data|..]
    ensures o.FailureResponse? ==> o.token == token
    ensures |data| > 0 && data[0] as int >= maxRoutes ==> o == Ignored
    decreases |data|
  {
    if |data| == 0 then ReadPastEnd
    else
      var id := data[0];
      if id as int < maxRoutes then
        var route := routes[id];
        assert route in routes;
        if Descends(route) then
          var o := ExecuteRoute(token, route.childRoutes.entries, route.childRoutesLen as nat, data[1..]);
          assert o.HandlerCall? ==> o.data == data[1..][|data| - 1 - |o.data|..] == data[|data| - |o.data|..];
          o
        else
          Act(route, token, data[1..])
      else
        Ignored
  }

  /** The token `xap_receive` reads from the first two bytes of the packet, least significant byte first. */
  function TokenOf(packet: seq<uint8>): uint16
    requires |packet| >= 2
  {
    (packet[0] as int + 0x100 * packet[1] as int) as uint16
  }

  /** `xap_receive(packet, length)`: dispatch from `root_routes` on the bytes after the token. */
  function ReceiveOutcome(packet: seq<uint8>): (o: Outcome)
    ensures |packet| < 3 ==> o == ReadPastEnd
    ensures o.HandlerCall? || o.FailureResponse? ==> o.token == TokenOf(packet)
    ensures o.HandlerCall? ==> |o.data| < |packet| - 2 && o.data == packet[|packet| - |o.data|..]
  {
    if |packet| < 2 then ReadPastEnd
    else
      assert WellFormed(ROOT_ROUTES) by {
        assert WellFormed(XAP_ROUTES) && WellFormed(QMK_ROUTES);
      }
      var o := ExecuteRoute(TokenOf(packet), ROOT_ROUTES, |ROOT_ROUTES|, packet[2..]);
      assert o.HandlerCall? ==> o.data == packet[2..][|packet| - 2 - |o.data|..] == packet[|packet| - |o.data|..];
      o
  }

  // ---------------------------------------------------------------------
  // Replies

  /** A 16-bit value stored through a `uint16_t *` on a little-endian target. */
  function Le16(x: uint16): seq<uint8> {
    [(x % 0x100) as uint8, (x / 0x100) as uint8]
  }

  /** A 32-bit value stored through a `uint32_t *` on a little-endian target. */
  function Le32(x: nat): seq<uint8>
    requires x < 0x1_0000_0000
  {
    [(x % 0x100) as uint8, (x / 0x100 % 0x100) as uint8, (x / 0x1_0000 % 0x100) as uint8, (x / 0x100_0000) as uint8]
  }

  function Zeros(n: nat): (z: seq<uint8>)
    ensures |z| == n && forall i :: 0 <= i < n ==> z[i] == 0
  {
    seq(n, _ => 0)
  }

  /** The packet `xap_respond_failure(token)` sends: the token, a zero status byte, zero padding. */
  function FailureReply(token: uint16, epSize: nat): seq<uint8>
    requires epSize >= 3
  {
    Le16(token) + [0] + Zeros(epSize - 3)
  }

  const QMK_VERSION: nat := 0x12345678

  /** The packet `qmk_route_version(token, ...)` sends: the token, status 0x01, the version, zero padding. */
  function VersionReply(token: uint16, epSize: nat): seq<uint8>
    requires epSize >= 7
  {
    Le16(token) + [0x01] + Le32(QMK_VERSION) + Zeros(epSize - 7)
  }

  /** The packets a dispatch outcome makes the firmware send: only `qmk_route_version` among the handlers sends. */
  function Replies(o: Outcome, epSize: nat): seq<seq<uint8>>
    requires 7 <= epSize
  {
    match o
    case FailureResponse(token) => [FailureReply(token, epSize)]
    case HandlerCall(QmkRouteVersionHandler, token, _) => [VersionReply(token, epSize)]
    case _ => []
  }

  // ---------------------------------------------------------------------
  // The endpoint: what has been handed to `xap_send`

  class XapEndpoint {
    /** XAP_EPSIZE, the size of every reply buffer. */
    const epSize: nat
    /** The packets passed to `xap_send`, oldest first. */
    var sent: seq<seq<uint8>>

    /** The replies write up to byte 6, and `xap_send` takes the size as a `uint8_t`. */
    predicate Valid() {
      7 <= epSize < 0x100
    }

    constructor(epSize: nat)
      requires 7 <= epSize < 0x100
      ensures Valid() && this.epSize == epSize && sent == []
    {
      this.epSize := epSize;
      sent := [];
    }

    /** `xap_send(data, length)`: the first `length` bytes of `data` go out as one packet. */
    method Send(data: array<uint8>, length: uint8)
      requires length as int <= data.Length
      modifies this
      ensures sent == old(sent) + [data[..length]]
    {
      sent := sent + [data[..length]];
    }

    /** `xap_respond_failure(token)` */
    method RespondFailure(token: uint16)
      requires Valid()
      modifies this
      ensures sent == old(sent) + [FailureReply(token, epSize)]
    {
      var data := new uint8[epSize](_ => 0);
      data[0], data[1] := (token % 0x100) as uint8, (token / 0x100) as uint8;
      data[2] := 0;
      assert data[..] == FailureReply(token, epSize);
      Send(data, epSize as uint8);
      assert data[..epSize as uint8] == data[..];
    }

    /** `qmk_route_version(token, data, data_len)`: the data is not looked at. */
    method QmkRouteVersion(token: uint16, data: seq<uint8>)
      requires Valid()
      modifies this
      ensures sent == old(sent) + [VersionReply(token, epSize)]
    {
      var rdata := new uint8[epSize](_ => 0);
      rdata[0], rdata[1] := (token % 0x100) as uint8, (token / 0x100) as uint8;
      rdata[2] := 0x01;
      rdata[3], rdata[4], rdata[5], rdata[6] := 0x78, 0x56, 0x34, 0x12;
      assert rdata[..] == VersionReply(token, epSize);
      Send(rdata, epSize as uint8);
      assert rdata[..epSize as uint8] == rdata[..];
    }

    /** The calls `(route->handler)(token, data, data_len)` through the static tables' pointers. */
    method CallHandler(handler: Handler, token: uint16, data: seq<uint8>)
      requires Valid()
      modifies this
      ensures handler == QmkRouteVersionHandler ==> sent == old(sent) + [VersionReply(token, epSize)]
      ensures handler != QmkRouteVersionHandler ==> sent == old(sent)
    {
      match handler
      case XapRouteVersionHandler =>
      case QmkCapsQueryHandler =>
      case QmkRouteVersionHandler => QmkRouteVersion(token, data);
    }

    /** `xap_receive(packet, |packet|)`, for packets long enough that no read goes past their end. */
    method Receive(packet: seq<uint8>)
      requires Valid()
      requires ReceiveOutcome(packet) != ReadPastEnd
      modifies this
      ensures sent == old(sent) + Replies(ReceiveOutcome(packet), epSize)
    {
      var o := ReceiveOutcome(packet);
      match o
      case FailureResponse(token) => RespondFailure(token);
      case HandlerCall(handler, token, data) => CallHandler(handler, token, data);
      case Ignored =>
    }
  }
}
