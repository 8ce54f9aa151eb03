/**
 * What the dispatcher does, stated through the path of identifier bytes
 * it follows, and what it does with the tables the firmware ships.
 */
module XapProperties {
  import opened Wrappers
  import opened Xap

  // ---------------------------------------------------------------------
  // Following a path of identifiers

  /**
   * The entry that the identifiers `ids` lead to: each id must be below
   * its table's length, and every entry passed through must be a router
   * the dispatcher descends into.
   */
  function EntryAt(routes: seq<Route>, maxRoutes: nat, ids: seq<uint8>): Option<Route>
    requires maxRoutes <= |routes| && WellFormed(routes)
    decreases |ids|
  {
    if |ids| == 0 || ids[0] as int >= maxRoutes then None
    else
      var r := routes[ids[0]];
      assert r in routes;
      if |ids| == 1 then Some(r)
      else if Descends(r) then EntryAt(r.childRoutes.entries, r.childRoutesLen as nat, ids[1..])
      else None
  }

  /**
   * When the first `k` bytes lead to an entry the dispatcher stops at, it
   * acts on that entry with the bytes after them: a handler gets the
   * payload with exactly `k` identifier bytes removed and the token it was
   * given.
   */
  lemma {:induction false} WalkDecides(token: uint16, routes: seq<Route>, maxRoutes: nat, data: seq<uint8>, k: nat)
    requires maxRoutes <= |routes| && WellFormed(routes)
    requires 1 <= k <= |data|
    requires EntryAt(routes, maxRoutes, data[..k]).Some? && !Descends(EntryAt(routes, maxRoutes, data[..k]).value)
    ensures ExecuteRoute(token, routes, maxRoutes, data) == Act(EntryAt(routes, maxRoutes, data[..k]).value, token, data[k..])
    decreases k
  {
    var r := routes[data[0]];
    assert r in routes;
    assert data[..k][0] == data[0];
    if k > 1 {
      assert data[..k][1..] == data[1..][..k - 1];
      assert data[1..][k - 1..] == data[k..];
      WalkDecides(token, r.childRoutes.entries, r.childRoutesLen as nat, data[1..], k - 1);
    }
  }

  /** An identifier beyond its table's length, at any depth, makes the dispatcher return without doing anything. */
  lemma {:induction false} OutOfRangeIgnored(token: uint16, routes: seq<Route>, maxRoutes: nat, data: seq<uint8>, k: nat)
    requires maxRoutes <= |routes| && WellFormed(routes)
    requires k < |data|
    requires k == 0 ==> data[0] as int >= maxRoutes
    requires k > 0 ==> EntryAt(routes, maxRoutes, data[..k]).Some? && Descends(EntryAt(routes, maxRoutes, data[..k]).value)
                       && data[k] >= EntryAt(routes, maxRoutes, data[..k]).value.childRoutesLen
    ensures ExecuteRoute(token, routes, maxRoutes, data) == Ignored
    decreases k
  {
    if k > 0 {
      var r := routes[data[0]];
      assert r in routes;
      assert data[..k][0] == data[0];
      if k > 1 {
        assert data[..k][1..] == data[1..][..k - 1];
      }
      assert data[1..][k - 1] == data[k];
      OutOfRangeIgnored(token, r.childRoutes.entries, r.childRoutesLen as nat, data[1..], k - 1);
    }
  }

  /**
   * The dispatcher reads past the end of the payload exactly when the
   * payload is empty or all of it leads to a router it descends into.
   */
  lemma {:induction false} ReadPastEndExactly(token: uint16, routes: seq<Route>, maxRoutes: nat, data: seq<uint8>)
    requires maxRoutes <= |routes| && WellFormed(routes)
    ensures ExecuteRoute(token, routes, maxRoutes, data) == ReadPastEnd <==>
              |data| == 0 || (EntryAt(routes, maxRoutes, data).Some? && Descends(EntryAt(routes, maxRoutes, data).value))
    decreases |data|
  {
    if |data| > 0 && data[0] as int < maxRoutes {
      var r := routes[data[0]];
      assert r in routes;
      if Descends(r) {
        ReadPastEndExactly(token, r.childRoutes.entries, r.childRoutesLen as nat, data[1..]);
      }
    }
  }

  /**
   * Conversely, every handler call and every failure response comes from
   * an entry that some first `k` bytes lead to.
   */
  lemma DecisionFromWalk(token: uint16, routes: seq<Route>, maxRoutes: nat, data: seq<uint8>)
    requires maxRoutes <= |routes| && WellFormed(routes)
    requires ExecuteRoute(token, routes, maxRoutes, data).HandlerCall? || ExecuteRoute(token, routes, maxRoutes, data).FailureResponse?
    ensures exists k :: 1 <= k <= |data| && EntryAt(routes, maxRoutes, data[..k]).Some?
              && !Descends(EntryAt(routes, maxRoutes, data[..k]).value)
              && ExecuteRoute(token, routes, maxRoutes, data) == Act(EntryAt(routes, maxRoutes, data[..k]).value, token, data[k..])
  {
    var k := DecidingPrefix(token, routes, maxRoutes, data);
    WalkDecides(token, routes, maxRoutes, data, k);
  }

  /** The number of identifier bytes the dispatcher reads before it acts. */
  lemma {:induction false} DecidingPrefix(token: uint16, routes: seq<Route>, maxRoutes: nat, data: seq<uint8>) returns (k: nat)
    requires maxRoutes <= |routes| && WellFormed(routes)
    requires ExecuteRoute(token, routes, maxRoutes, data).HandlerCall? || ExecuteRoute(token, routes, maxRoutes, data).FailureResponse?
    ensures 1 <= k <= |data| && EntryAt(routes, maxRoutes, data[..k]).Some? && !Descends(EntryAt(routes, maxRoutes, data[..k]).value)
    decreases |data|
  {
    var r := routes[data[0]];
    assert r in routes;
    if Descends(r) {
      var children, len := r.childRoutes.entries, r.childRoutesLen as nat;
      var k' := DecidingPrefix(token, children, len, data[1..]);
      k := k' + 1;
      assert data[..k][0] == data[0];
      assert data[..k][1..] == data[1..][..k'];
    } else {
      k := 1;
      assert data[..1] == [data[0]];
    }
  }

  // ---------------------------------------------------------------------
  // The tables the firmware ships

  /** The designated initialisers put each entry at the slot its identifier names. */
  lemma StaticTablesIndexed()
    ensures XAP_ROUTES[XAP_SUBSYSTEM_XAP_ROUTE_VERSION] == Execute(false, Some(XapRouteVersionHandler))
    ensures QMK_ROUTES[XAP_SUBSYSTEM_QMK_CAPABILITIES_QUERY] == Execute(false, Some(QmkCapsQueryHandler))
    ensures QMK_ROUTES[XAP_SUBSYSTEM_QMK_ROUTE_VERSION] == Execute(false, Some(QmkRouteVersionHandler))
    ensures ROOT_ROUTES[XAP_SUBSYSTEM_XAP] == Router(false, Table(XAP_ROUTES), 1)
    ensures ROOT_ROUTES[XAP_SUBSYSTEM_QMK] == Router(false, Table(QMK_ROUTES), 2)
    ensures |ROOT_ROUTES| == 2 && WellFormed(ROOT_ROUTES)
  {
  }

  /**
   * The whole decision the shipped tables make for a packet: subsystem
   * byte, then route byte, then the handler with the rest of the packet.
   */
  lemma StaticDispatch(packet: seq<uint8>)
    ensures ReceiveOutcome(packet) ==
      if |packet| < 3 then ReadPastEnd
      else if packet[2] > XAP_SUBSYSTEM_QMK then Ignored
      else if |packet| == 3 then ReadPastEnd
      else if packet[2] == XAP_SUBSYSTEM_XAP then
        (if packet[3] == XAP_SUBSYSTEM_XAP_ROUTE_VERSION then HandlerCall(XapRouteVersionHandler, TokenOf(packet), packet[4..]) else Ignored)
      else if packet[3] == XAP_SUBSYSTEM_QMK_CAPABILITIES_QUERY then HandlerCall(QmkCapsQueryHandler, TokenOf(packet), packet[4..])
      else if packet[3] == XAP_SUBSYSTEM_QMK_ROUTE_VERSION then HandlerCall(QmkRouteVersionHandler, TokenOf(packet), packet[4..])
      else Ignored
  {
    StaticTablesIndexed();
    if |packet| >= 3 {
      var token, data := TokenOf(packet), packet[2..];
      assert data[0] == packet[2];
      if packet[2] <= XAP_SUBSYSTEM_QMK {
        var sub := ROOT_ROUTES[data[0]];
        assert ExecuteRoute(token, ROOT_ROUTES, 2, data)
            == ExecuteRoute(token, sub.childRoutes.entries, sub.childRoutesLen as nat, data[1..]);
        if |packet| > 3 {
          assert data[1..][0] == packet[3];
          assert data[1..][1..] == packet[4..];
        }
      }
    }
  }

  /** No packet makes the shipped firmware send a failure response: none of its entries has an unknown type. */
  lemma NoFailureResponse(packet: seq<uint8>)
    ensures !ReceiveOutcome(packet).FailureResponse?
  {
    StaticDispatch(packet);
  }

  /** The packet reaches `qmk_route_version` exactly when bytes 2 and 3 are XAP_SUBSYSTEM_QMK and XAP_SUBSYSTEM_QMK_ROUTE_VERSION. */
  lemma QmkRouteVersionRoute(packet: seq<uint8>, token: uint16, data: seq<uint8>)
    ensures ReceiveOutcome(packet) == HandlerCall(QmkRouteVersionHandler, token, data) <==>
              |packet| >= 4 && packet[2] == XAP_SUBSYSTEM_QMK && packet[3] == XAP_SUBSYSTEM_QMK_ROUTE_VERSION
              && token == TokenOf(packet) && data == packet[4..]
  {
    StaticDispatch(packet);
  }

  // ---------------------------------------------------------------------
  // Replies

  /** Reading back a little-endian 32-bit value. */
  function FromLe32(b: seq<uint8>): nat
    requires |b| == 4
  {
    b[0] as nat + 0x100 * b[1] as nat + 0x1_0000 * b[2] as nat + 0x100_0000 * b[3] as nat
  }

  /** The token written into a reply is the token `xap_receive` reads back from it. */
  lemma TokenRoundTrip(token: uint16, rest: seq<uint8>)
    ensures TokenOf(Le16(token) + rest) == token
  {
  }

  /** The 32-bit value stored byte by byte reads back as the same value. */
  lemma Le32RoundTrip(x: nat)
    requires x < 0x1_0000_0000
    ensures FromLe32(Le32(x)) == x
  {
    var x1, x2, x3 := x / 0x100, x / 0x1_0000, x / 0x100_0000;
    assert x == x % 0x100 + 0x100 * x1;
    assert x1 == x1 % 0x100 + 0x100 * (x1 / 0x100);
    assert x1 / 0x100 == x2;
    assert x2 == x2 % 0x100 + 0x100 * (x2 / 0x100);
    assert x2 / 0x100 == x3;
    assert x / 0x1_0000 % 0x100 == x2 % 0x100;
  }

  /** A failure response is `XAP_EPSIZE` bytes: the token, a zero status, and zeros. */
  lemma FailureReplyLayout(token: uint16, epSize: nat)
    requires epSize >= 3
    ensures var p := FailureReply(token, epSize);
      |p| == epSize && TokenOf(p) == token && p[2] == 0 && forall i :: 3 <= i < epSize ==> p[i] == 0
  {
    TokenRoundTrip(token, [0] + Zeros(epSize - 3));
    assert FailureReply(token, epSize) == Le16(token) + ([0] + Zeros(epSize - 3));
  }

  /** The version reply is `XAP_EPSIZE` bytes: the token, status 0x01, 0x12345678 in bytes 3 to 6, and zeros. */
  lemma VersionReplyLayout(token: uint16, epSize: nat)
    requires epSize >= 7
    ensures var p := VersionReply(token, epSize);
      |p| == epSize && TokenOf(p) == token && p[2] == 0x01 && FromLe32(p[3..7]) == 0x12345678
      && forall i :: 7 <= i < epSize ==> p[i] == 0
  {
    var p := VersionReply(token, epSize);
    TokenRoundTrip(token, [0x01] + Le32(QMK_VERSION) + Zeros(epSize - 7));
    assert p == Le16(token) + ([0x01] + Le32(QMK_VERSION) + Zeros(epSize - 7));
    assert p[3..7] == Le32(QMK_VERSION);
    Le32RoundTrip(QMK_VERSION);
  }

  /**
   * A packet whose bytes 2 and 3 name the QMK version route makes the
   * firmware send exactly one packet, which echoes the request's token.
   */
  lemma VersionRequestAnswered(packet: seq<uint8>, epSize: nat)
    requires 7 <= epSize
    requires |packet| >= 4 && packet[2] == XAP_SUBSYSTEM_QMK && packet[3] == XAP_SUBSYSTEM_QMK_ROUTE_VERSION
    ensures Replies(ReceiveOutcome(packet), epSize) == [VersionReply(TokenOf(packet), epSize)]
    ensures TokenOf(VersionReply(TokenOf(packet), epSize)) == TokenOf(packet)
  {
    QmkRouteVersionRoute(packet, TokenOf(packet), packet[4..]);
    VersionReplyLayout(TokenOf(packet), epSize);
  }
}
