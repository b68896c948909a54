/** Relaying broadcasts through proxies (network/src/pub_sub, proxy/src/server.rs): which connections a message
may take, and how far it can travel in any, even changing, topology. */
module Relay {
  import opened ChitchatTypes

  datatype Host = Host(id: Text, addr: SocketAddr, isProxy: bool)

  datatype Protocol = SubscriptionFromProxy | SubscriptionFromNode | Direct

  datatype Roles = Roles(subscriber: bool, publisher: bool, directReceiver: bool, directSender: bool)

  datatype ConnectionInfo = ConnectionInfo(
    localIsProxy: bool,
    roles: Roles,
    remoteAddr: SocketAddr,
    remoteHostId: Text,
    remoteIsProxy: bool)

  datatype NetMessage = NetMessage(id: Text, msgType: Text, data: Bytes, lastSenderIsProxy: bool)

  datatype Delivery = Broadcast | BroadcastExcluding(excluding: ConnectionInfo) | ToAddr(addr: SocketAddr)

  // ----- both ends of a subscription -----

  const SUBSCRIBER := Roles(true, false, false, false)
  const PUBLISHER := Roles(false, true, false, false)
  const DIRECT_SENDER := Roles(false, false, false, true)

  /** What a subscriber announces, and what the publisher concludes from it. */
  function Announced(subscriber: Host): Protocol {
    if subscriber.isProxy then SubscriptionFromProxy else SubscriptionFromNode
  }

  function Accepted(protocol: Protocol): (Roles, bool) {
    match protocol
    case SubscriptionFromProxy => (PUBLISHER, true)
    case SubscriptionFromNode => (PUBLISHER, false)
    case Direct => (DIRECT_SENDER, false)
  }

  function AtPublisher(publisher: Host, subscriber: Host): ConnectionInfo {
    var (roles, remoteIsProxy) := Accepted(Announced(subscriber));
    ConnectionInfo(publisher.isProxy, roles, subscriber.addr, subscriber.id, remoteIsProxy)
  }

  function AtSubscriber(publisher: Host, subscriber: Host): ConnectionInfo {
    ConnectionInfo(subscriber.isProxy, SUBSCRIBER, publisher.addr, publisher.id, false)
  }

  // ----- sending -----

  predicate AllowSending(c: ConnectionInfo, delivery: Delivery, m: NetMessage) {
    if m.lastSenderIsProxy && c.remoteIsProxy then false
    else
      match delivery
      case Broadcast => c.roles.publisher
      case BroadcastExcluding(excluding) => c.roles.publisher && c.remoteHostId != excluding.remoteHostId
      case ToAddr(addr) => c.remoteAddr == addr
  }

  function Prefix(hostId: Text): Text { if |hostId| >= 6 then hostId[..6] else hostId }

  /** The identifier of a host is cut to its first six bytes. */
  lemma PrefixIsShort(hostId: Text)
    ensures Prefix(hostId) <= hostId && |Prefix(hostId)| == if |hostId| < 6 then |hostId| else 6
  {
  }

  function Sent(c: ConnectionInfo, m: NetMessage): NetMessage {
    m.(lastSenderIsProxy := c.localIsProxy, id := m.id + [58] + Prefix(c.remoteHostId))
  }

  /** `send_message`, up to the transfer. */
  method SendMessage(c: ConnectionInfo, delivery: Delivery, message: NetMessage) returns (sent: Option<NetMessage>)
    ensures sent.Some? <==> AllowSending(c, delivery, message)
    ensures sent.Some? ==> sent.value == Sent(c, message)
  {
    if !AllowSending(c, delivery, message) {
      return None;
    }
    var outgoing := message;
    outgoing := outgoing.(lastSenderIsProxy := c.localIsProxy);
    outgoing := outgoing.(id := outgoing.id + [58]);
    outgoing := outgoing.(id := outgoing.id + Prefix(c.remoteHostId));
    return Some(outgoing);
  }

  /** `message_multiplexor`: what a proxy receives it sends on unchanged, in order, to everyone but its sender. */
  method Multiplex(incoming: seq<(ConnectionInfo, NetMessage)>) returns (outgoing: seq<(Delivery, NetMessage)>)
    ensures |outgoing| == |incoming|
    ensures forall i :: 0 <= i < |incoming| ==> outgoing[i] == (BroadcastExcluding(incoming[i].0), incoming[i].1)
  {
    outgoing := [];
    for i := 0 to |incoming|
      invariant |outgoing| == i
      invariant forall j :: 0 <= j < i ==> outgoing[j] == (BroadcastExcluding(incoming[j].0), incoming[j].1)
    {
      outgoing := outgoing + [(BroadcastExcluding(incoming[i].0), incoming[i].1)];
    }
  }

  // ----- runs -----

  /** `to` has subscribed to `from`. */
  datatype Link = Link(from: Host, to: Host)

  /** A message as it arrived at the last host of its route. */
  datatype Copy = Copy(route: seq<Host>, message: NetMessage)

  /** A host publishes `m`, whose flag is not set, and the link takes it. */
  ghost predicate Published(m: NetMessage, link: Link, c: Copy) {
    var at := AtPublisher(link.from, link.to);
    && !m.lastSenderIsProxy && AllowSending(at, Broadcast, m)
    && c == Copy([link.from, link.to], Sent(at, m))
  }

  /** Only a proxy passes a message on: to its own subscribers, except back over the connection it came from. */
  ghost predicate Relayed(c: Copy, link: Link, d: Copy) {
    var n := |c.route|;
    && n >= 2 && c.route[n - 1] == link.from && link.from.isProxy
    && var at, cameFrom := AtPublisher(link.from, link.to), AtSubscriber(c.route[n - 2], link.from);
    && AllowSending(at, BroadcastExcluding(cameFrom), c.message)
    && d == Copy(c.route + [link.to], Sent(at, c.message))
  }

  datatype Event = Publish(message: NetMessage, link: Link) | Pass(copy: Copy, link: Link)

  ghost predicate Produces(copies: set<Copy>, e: Event, d: Copy) {
    match e
    case Publish(m, link) => Published(m, link, d)
    case Pass(c, link) => c in copies && Relayed(c, link, d)
  }

  /** One link takes one message; `links` are the subscriptions at that moment. */
  ghost predicate Next(copies: set<Copy>, links: set<Link>, e: Event, after: set<Copy>) {
    e.link in links && exists d :: Produces(copies, e, d) && after == copies + {d}
  }

  ghost predicate IsRun(states: seq<set<Copy>>, links: seq<set<Link>>, events: seq<Event>) {
    && |states| == |events| + 1 && |links| == |events|
    && states[0] == {}
    && (forall i :: 0 <= i < |events| ==> Next(states[i], links[i], events[i], states[i + 1]))
  }

  // ----- what every route looks like -----

  /** From `before` over `via` to `after`: only proxies relay, never over two links between proxies in a row,
      and never straight back. */
  ghost predicate Turn(before: Host, via: Host, after: Host) {
    via.isProxy && !(before.isProxy && after.isProxy) && before.id != after.id
  }

  ghost predicate Admissible(route: seq<Host>) {
    |route| >= 2 && forall i :: 0 < i < |route| - 1 ==> Turn(route[i - 1], route[i], route[i + 1])
  }

  /** The identifier records the route. */
  function Trail(id: Text, route: seq<Host>): Text
    requires |route| >= 1
  {
    if |route| == 1 then id else Trail(id, route[..|route| - 1]) + [58] + Prefix(route[|route| - 1].id)
  }

  /** The message `m`, published by the first host, as it arrives at the last. */
  function Arrived(m: NetMessage, route: seq<Host>): NetMessage
    requires |route| >= 2
  {
    m.(id := Trail(m.id, route), lastSenderIsProxy := route[|route| - 2].isProxy)
  }

  ghost predicate IsRouted(c: Copy) {
    && Admissible(c.route)
    && exists m: NetMessage :: !m.lastSenderIsProxy && c.message == Arrived(m, c.route)
  }

  lemma FirstHop(m: NetMessage, from: Host, to: Host)
    ensures Sent(AtPublisher(from, to), m) == Arrived(m, [from, to])
    ensures AllowSending(AtPublisher(from, to), Broadcast, m) <==> !(m.lastSenderIsProxy && to.isProxy)
  {
    assert [from, to][..1] == [from];
    assert Trail(m.id, [from]) == m.id;
  }

  lemma NextHop(m: NetMessage, route: seq<Host>, to: Host)
    requires |route| >= 2
    ensures var n := |route|;
            var at, cameFrom := AtPublisher(route[n - 1], to), AtSubscriber(route[n - 2], route[n - 1]);
            && Sent(at, Arrived(m, route)) == Arrived(m, route + [to])
            && (AllowSending(at, BroadcastExcluding(cameFrom), Arrived(m, route)) && route[n - 1].isProxy <==>
                Turn(route[n - 2], route[n - 1], to))
  {
    assert (route + [to])[..|route|] == route;
  }

  lemma AdmissibleOneMore(route: seq<Host>, to: Host)
    requires |route| >= 2
    ensures Admissible(route + [to]) <==> Admissible(route) && Turn(route[|route| - 2], route[|route| - 1], to)
  {
    hide Turn;
    var n, longer := |route|, route + [to];
    assert longer[n - 2] == route[n - 2] && longer[n - 1] == route[n - 1] && longer[n] == to;
    if Admissible(longer) {
      assert Turn(longer[n - 2], longer[n - 1], longer[n]);
      forall i | 0 < i < n - 1 ensures Turn(route[i - 1], route[i], route[i + 1]) {
        assert Turn(longer[i - 1], longer[i], longer[i + 1]);
      }
    }
    if Admissible(route) && Turn(route[n - 2], route[n - 1], to) {
      forall i | 0 < i < n ensures Turn(longer[i - 1], longer[i], longer[i + 1]) {
        assert i < n - 1 ==> Turn(route[i - 1], route[i], route[i + 1]);
      }
    }
  }

  lemma PublishedIsRouted(m: NetMessage, link: Link, c: Copy)
    requires Published(m, link, c)
    ensures IsRouted(c)
  {
    FirstHop(m, link.from, link.to);
    assert c.message == Arrived(m, c.route);
  }

  lemma RelayedIsRouted(c: Copy, link: Link, d: Copy)
    requires IsRouted(c) && Relayed(c, link, d)
    ensures IsRouted(d)
  {
    hide Admissible, Turn, Arrived, AllowSending, Sent, AtPublisher, AtSubscriber;
    var m: NetMessage :| !m.lastSenderIsProxy && c.message == Arrived(m, c.route);
    NextHop(m, c.route, link.to);
    AdmissibleOneMore(c.route, link.to);
    assert d.message == Arrived(m, d.route);
  }

  /** Before moment `n` the hops of the route were taken one after the other, each over a subscription of its moment. */
  ghost predicate Travelled(links: seq<set<Link>>, route: seq<Host>, n: nat)
    requires n <= |links|
  {
    var last := |route| - 1;
    last < 1
    || exists i ::
         0 <= i < n && Link(route[last - 1], route[last]) in links[i] && Travelled(links, route[..last], i)
  }

  lemma TravelledLater(links: seq<set<Link>>, route: seq<Host>, n: nat, later: nat)
    requires n <= later <= |links| && Travelled(links, route, n)
    ensures Travelled(links, route, later)
  {
  }

  lemma TravelledOneMore(links: seq<set<Link>>, route: seq<Host>, to: Host, n: nat)
    requires n < |links| && route != [] && Link(route[|route| - 1], to) in links[n] && Travelled(links, route, n)
    ensures Travelled(links, route + [to], n + 1)
  {
    assert (route + [to])[..|route|] == route;
  }

  lemma ProducedHasTravelled(copies: set<Copy>, links: seq<set<Link>>, n: nat, e: Event, d: Copy)
    requires n < |links| && e.link in links[n] && Produces(copies, e, d)
    requires forall c :: c in copies ==> Travelled(links, c.route, n)
    ensures Travelled(links, d.route, n + 1)
  {
    match e
    case Publish(m, link) =>
      assert d.route == [link.from] + [link.to];
      TravelledOneMore(links, [link.from], link.to, n);
    case Pass(c, link) =>
      TravelledOneMore(links, c.route, link.to, n);
  }

  /** In every run, whatever the subscriptions are at each moment, every copy took an admissible route over
      subscriptions, carries the published contents, and its identifier names the hosts it went through. */
  lemma {:induction false} EveryCopyIsRouted(states: seq<set<Copy>>, links: seq<set<Link>>, events: seq<Event>, n: nat)
    requires IsRun(states, links, events) && n < |states|
    ensures forall c :: c in states[n] ==> IsRouted(c) && Travelled(links, c.route, n)
  {
    hide IsRouted, Published, Relayed, Travelled;
    if n > 0 {
      EveryCopyIsRouted(states, links, events, n - 1);
      assert Next(states[n - 1], links[n - 1], events[n - 1], states[n]);
      var d :| Produces(states[n - 1], events[n - 1], d) && states[n] == states[n - 1] + {d};
      match events[n - 1] {
        case Publish(m, link) => PublishedIsRouted(m, link, d);
        case Pass(c, link) => RelayedIsRouted(c, link, d);
      }
      ProducedHasTravelled(states[n - 1], links, n - 1, events[n - 1], d);
      forall c | c in states[n - 1] ensures Travelled(links, c.route, n) {
        TravelledLater(links, c.route, n - 1, n);
      }
    }
  }

  /** No message makes more than three hops, or two if a proxy published it: relaying always ends. */
  lemma AtMostThreeHops(route: seq<Host>)
    requires Admissible(route)
    ensures |route| <= if route[0].isProxy then 3 else 4
  {
    if |route| >= 4 {
      assert Turn(route[0], route[1], route[2]) && Turn(route[1], route[2], route[3]);
    }
    assert |route| >= 5 ==> Turn(route[2], route[3], route[4]);
  }

  // ----- and every such route is taken -----

  ghost predicate Connected(links: set<Link>, route: seq<Host>) {
    forall i :: 0 < i < |route| ==> Link(route[i - 1], route[i]) in links
  }

  /** Over fixed subscriptions, what has travelled took only these. */
  lemma {:induction false} TravelledIsConnected(links: set<Link>, n: nat, route: seq<Host>, i: nat)
    requires i <= n && Travelled(seq(n, _ => links), route, i)
    ensures Connected(links, route)
    decreases |route|
  {
    var last := |route| - 1;
    if last >= 1 {
      var j :| && 0 <= j < i && Link(route[last - 1], route[last]) in links
               && Travelled(seq(n, _ => links), route[..last], j);
      TravelledIsConnected(links, n, route[..last], j);
      forall k | 0 < k < |route| ensures Link(route[k - 1], route[k]) in links {
        if k < last {
          assert Link(route[..last][k - 1], route[..last][k]) in links;
        }
      }
    }
  }

  /** Over fixed subscriptions, every admissible route is the route of a copy in some run. */
  lemma {:induction false} EveryRouteIsTaken(links: set<Link>, route: seq<Host>, m: NetMessage)
    returns (states: seq<set<Copy>>, events: seq<Event>)
    requires |route| >= 2 && Connected(links, route) && Admissible(route) && !m.lastSenderIsProxy
    ensures IsRun(states, seq(|events|, _ => links), events)
    ensures Copy(route, Arrived(m, route)) in states[|events|]
  {
    hide Admissible, Turn, Arrived, AllowSending, Sent, AtPublisher, AtSubscriber;
    var n := |route| - 1;
    var link := Link(route[n - 1], route[n]);
    assert link in links;
    var d := Copy(route, Arrived(m, route));
    if n == 1 {
      assert route == [link.from, link.to];
      FirstHop(m, link.from, link.to);
      assert Produces({}, Publish(m, link), d);
      events, states := [Publish(m, link)], [{}, {} + {d}];
      assert Next({}, links, Publish(m, link), {} + {d});
    } else {
      assert route == route[..n] + [route[n]];
      AdmissibleOneMore(route[..n], route[n]);
      NextHop(m, route[..n], route[n]);
      var before, es := EveryRouteIsTaken(links, route[..n], m);
      var c := Copy(route[..n], Arrived(m, route[..n]));
      assert Produces(before[|es|], Pass(c, link), d);
      assert Next(before[|es|], links, Pass(c, link), before[|es|] + {d});
      events, states := es + [Pass(c, link)], before + [before[|es|] + {d}];
    }
  }

  ghost predicate IsRoute(links: set<Link>, route: seq<Host>, from: Host, to: Host) {
    Admissible(route) && Connected(links, route) && route[0] == from && route[|route| - 1] == to
  }

  ghost predicate Arrives(m: NetMessage, c: Copy, from: Host, to: Host) {
    |c.route| >= 2 && c.route[0] == from && c.route[|c.route| - 1] == to && c.message == Arrived(m, c.route)
  }

  ghost predicate EndsWith(links: set<Link>, states: seq<set<Copy>>, events: seq<Event>, c: Copy) {
    IsRun(states, seq(|events|, _ => links), events) && c in states[|events|]
  }

  /** In some run over these subscriptions `to` gets the message `m` that `from` publishes. */
  ghost predicate Delivered(links: set<Link>, m: NetMessage, from: Host, to: Host) {
    exists states, events, c :: EndsWith(links, states, events, c) && Arrives(m, c, from, to)
  }

  /** A message is delivered exactly along the routes. */
  lemma DeliveredExactly(links: set<Link>, m: NetMessage, from: Host, to: Host)
    requires !m.lastSenderIsProxy
    ensures Delivered(links, m, from, to) <==> exists route :: IsRoute(links, route, from, to)
  {
    hide Next, Admissible, Connected, Travelled, Arrived;
    if Delivered(links, m, from, to) {
      var states, events, c :| EndsWith(links, states, events, c) && Arrives(m, c, from, to);
      EveryCopyIsRouted(states, seq(|events|, _ => links), events, |events|);
      TravelledIsConnected(links, |events|, c.route, |events|);
      assert IsRoute(links, c.route, from, to);
    }
    if route :| IsRoute(links, route, from, to) {
      AdmissibleIsLong(route);
      var states, events := EveryRouteIsTaken(links, route, m);
      var c := Copy(route, Arrived(m, route));
      assert EndsWith(links, states, events, c) && Arrives(m, c, from, to);
    }
  }

  lemma AdmissibleIsLong(route: seq<Host>)
    requires Admissible(route)
    ensures |route| >= 2
  {
  }

  ghost predicate InTwoHops(links: set<Link>, from: Host, via: Host, to: Host) {
    && via.isProxy && Link(from, via) in links && Link(via, to) in links
    && to.id != from.id && !(from.isProxy && to.isProxy)
  }

  ghost predicate InThreeHops(links: set<Link>, from: Host, via: Host, next: Host, to: Host) {
    && InTwoHops(links, from, via, next) && next.isProxy && Link(next, to) in links
    && to.id != via.id && !to.isProxy
  }

  /** Exactly the hosts that get what a host publishes. */
  lemma HostReachesExactly(links: set<Link>, m: NetMessage, from: Host, to: Host)
    requires !m.lastSenderIsProxy
    ensures Delivered(links, m, from, to) <==>
            || Link(from, to) in links
            || (exists via :: InTwoHops(links, from, via, to))
            || (exists via, next :: InThreeHops(links, from, via, next, to))
  {
    hide Delivered;
    DeliveredExactly(links, m, from, to);
    if r :| IsRoute(links, r, from, to) {
      AtMostThreeHops(r);
      if |r| == 3 {
        assert InTwoHops(links, from, r[1], to);
      } else if |r| == 4 {
        assert InThreeHops(links, from, r[1], r[2], to);
      }
    }
    if Link(from, to) in links {
      assert IsRoute(links, [from, to], from, to);
    }
    if via :| InTwoHops(links, from, via, to) {
      assert IsRoute(links, [from, via, to], from, to);
    }
    if via, next :| InThreeHops(links, from, via, next, to) {
      assert IsRoute(links, [from, via, next, to], from, to);
    }
  }

  /** A host gets its own message exactly when it subscribes to itself, or is a node that subscribes to a proxy that
      subscribes to another proxy that subscribes to the node: the way straight back is closed, the way around is
      not. */
  lemma OwnMessageComesBackExactly(links: set<Link>, m: NetMessage, host: Host)
    requires !m.lastSenderIsProxy
    ensures Delivered(links, m, host, host) <==>
            Link(host, host) in links || exists via, next :: InThreeHops(links, host, via, next, host)
  {
    hide Delivered;
    HostReachesExactly(links, m, host, host);
  }
}
