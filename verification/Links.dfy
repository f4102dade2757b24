/**
 The link registry of one node: which physical link to a peer is THE link, and what
 tearing a link down does. One `LinkTable` holds what the process keeps in `NODES` and
 `DIAL_ROUTES`, together with the effects its operations have on the rest of the node:
 the sockets they shut, the `[:nodedown]`s they fire and the couplings they sever.
 */
module Links {
  import opened Wrappers
  import opened NodeNames

  /** A link to a peer: its generation, who dialed it, which life of the peer it reaches. */
  datatype Conn = Conn(id: nat, connector: string, incarnation: nat, addr: string, guest: bool)

  /** What registering a link does about the link already registered for its peer. */
  datatype Verdict = Retire | Keep | Take

  /**
   The registered link is retired when it reaches another life of the peer; else it is kept
   unless the new link's connector sorts strictly first.
   */
  function Resolve(existing: Option<Conn>, link: Conn): Verdict {
    match existing
    case None => Take
    case Some(current) =>
      if current.incarnation != link.incarnation then Retire
      else if !Before(link.connector, current.connector) then Keep
      else Take
  }

  function Lookup(nodes: map<string, Conn>, peer: string): Option<Conn> {
    if peer in nodes then Some(nodes[peer]) else None
  }

  /** `routes` without the addresses that reached `peer`. */
  function WithoutPeer(routes: map<string, string>, peer: string): (kept: map<string, string>)
    ensures forall a :: a in kept <==> a in routes && routes[a] != peer
    ensures forall a :: a in kept ==> kept[a] == routes[a]
  {
    map a | a in routes && routes[a] != peer :: routes[a]
  }

  /** The link of a table that a dial of `addr` claiming `claimed` may be answered from. */
  predicate Answers(nodes: map<string, Conn>, routes: map<string, string>,
                    claimed: string, addr: string, peer: string)
  {
    && peer in nodes
    && !nodes[peer].guest
    && (peer == claimed
        || (addr in routes && routes[addr] == peer)
        || (addr != "" && nodes[peer].addr == addr))
  }

  class LinkTable {
    var nodes: map<string, Conn>
    var routes: map<string, string>
    var shut: set<nat>
    var nodedowns: seq<string>
    var severed: seq<string>

    constructor ()
      ensures nodes == map[] && routes == map[] && shut == {} && nodedowns == [] && severed == []
    {
      nodes, routes, shut, nodedowns, severed := map[], map[], {}, [], [];
    }

    /** Drop the dial routes that reached `peer`. */
    method ForgetDialRoutes(peer: string)
      modifies this`routes
      ensures routes == WithoutPeer(old(routes), peer)
    {
      routes := map a | a in routes && routes[a] != peer :: routes[a];
    }

    /** A node-down: its watchers are told first, then the couplings over the link go. */
    method FireNodedown(peer: string)
      modifies this`nodedowns, this`severed
      ensures nodedowns == old(nodedowns) + [peer]
      ensures severed == old(severed) + [peer]
    {
      nodedowns := nodedowns + [peer];
      severed := severed + [peer];
    }

    /** Remove `peer`'s entry if it is still generation `id`. */
    method RemoveCurrentLink(peer: string, id: nat) returns (removed: bool)
      modifies this`nodes
      ensures removed <==> peer in old(nodes) && old(nodes)[peer].id == id
      ensures nodes == if removed then old(nodes) - {peer} else old(nodes)
    {
      removed := peer in nodes && nodes[peer].id == id;
      if removed {
        nodes := nodes - {peer};
      }
    }

    /**
     What a link's reader does at EOF. A link that is no longer the registered generation
     changes nothing; the registered one goes, and fires exactly one node-down.
     */
    method DropLink(peer: string, id: nat)
      modifies this
      ensures shut == old(shut)
      ensures peer in old(nodes) && old(nodes)[peer].id == id ==>
                && nodes == old(nodes) - {peer}
                && routes == WithoutPeer(old(routes), peer)
                && nodedowns == old(nodedowns) + [peer]
                && severed == old(severed) + [peer]
      ensures !(peer in old(nodes) && old(nodes)[peer].id == id) ==>
                && nodes == old(nodes)
                && routes == old(routes)
                && nodedowns == old(nodedowns)
                && severed == old(severed)
    {
      var removed := RemoveCurrentLink(peer, id);
      if removed {
        ForgetDialRoutes(peer);
        FireNodedown(peer);
      }
    }

    /** The deliberate teardown: the same as the reader's, and the socket is shut. */
    method Disconnect(peer: string) returns (existed: bool)
      modifies this
      ensures existed <==> peer in old(nodes)
      ensures nodes == old(nodes) - {peer}
      ensures existed ==>
                && shut == old(shut) + {old(nodes)[peer].id}
                && routes == WithoutPeer(old(routes), peer)
                && nodedowns == old(nodedowns) + [peer]
                && severed == old(severed) + [peer]
      ensures !existed ==>
                && shut == old(shut)
                && routes == old(routes)
                && nodedowns == old(nodedowns)
                && severed == old(severed)
    {
      if peer !in nodes {
        return false;
      }
      var id := nodes[peer].id;
      var removed := RemoveCurrentLink(peer, id);
      shut := shut + {id};
      if removed {
        ForgetDialRoutes(peer);
        FireNodedown(peer);
      }
      existed := true;
    }

    /** Tear down a link to an earlier life of `peer`, already removed from the table. */
    method RetirePreviousIncarnation(peer: string, previous: Conn)
      modifies this`shut, this`routes, this`nodedowns, this`severed
      ensures shut == old(shut) + {previous.id}
      ensures routes == WithoutPeer(old(routes), peer)
      ensures nodedowns == old(nodedowns) + [peer]
      ensures severed == old(severed) + [peer]
    {
      shut := shut + {previous.id};
      ForgetDialRoutes(peer);
      FireNodedown(peer);
    }

    /**
     Register `link` as THE link to `peer`. `None` when it is refused or loses, else
     whether the peer had no link before. A restart of the peer always wins and is one
     node-down of the old life; replacing a link to the same life is none, but severs the
     couplings made over it; losing changes nothing.
     */
    method RegisterLink(peer: string, link: Conn) returns (wasNew: Option<bool>)
      modifies this
      ensures wasNew.None? <==>
                || (!link.guest && IsGuestName(peer))
                || (&& peer in old(nodes)
                    && old(nodes)[peer].incarnation == link.incarnation
                    && (old(nodes)[peer].connector == link.connector
                        || Before(old(nodes)[peer].connector, link.connector)))
      ensures wasNew.None? ==>
                && nodes == old(nodes) && routes == old(routes) && shut == old(shut)
                && nodedowns == old(nodedowns) && severed == old(severed)
      ensures wasNew.Some? ==>
                && nodes == old(nodes)[peer := link]
                && shut == (if peer in old(nodes) then old(shut) + {old(nodes)[peer].id} else old(shut))
                && severed == (if peer in old(nodes) then old(severed) + [peer] else old(severed))
      ensures wasNew.Some? && peer in old(nodes) && old(nodes)[peer].incarnation != link.incarnation ==>
                && wasNew.value
                && nodedowns == old(nodedowns) + [peer]
                && routes == WithoutPeer(old(routes), peer)
      ensures wasNew.Some? && !(peer in old(nodes) && old(nodes)[peer].incarnation != link.incarnation) ==>
                && wasNew.value == (peer !in old(nodes))
                && nodedowns == old(nodedowns)
                && routes == old(routes)
    {
      var evicted: Option<Conn> := None;
      var retired := false;
      while true
        invariant !retired ==>
                    && nodes == old(nodes) && routes == old(routes) && shut == old(shut)
                    && nodedowns == old(nodedowns) && severed == old(severed)
        invariant retired ==>
                    && (link.guest || !IsGuestName(peer))
                    && peer in old(nodes)
                    && old(nodes)[peer].incarnation != link.incarnation
                    && nodes == old(nodes) - {peer}
                    && routes == WithoutPeer(old(routes), peer)
                    && shut == old(shut) + {old(nodes)[peer].id}
                    && nodedowns == old(nodedowns) + [peer]
                    && severed == old(severed) + [peer]
        decreases !retired
      {
        if !link.guest && IsGuestName(peer) {
          return None;
        }
        match Resolve(Lookup(nodes, peer), link) {
          case Retire =>
            var previous := nodes[peer];
            nodes := nodes - {peer};
            RetirePreviousIncarnation(peer, previous);
            retired := true;
          case Keep =>
            BeforeTotal(link.connector, nodes[peer].connector);
            return None;
          case Take =>
            evicted := Lookup(nodes, peer);
            wasNew := Some(evicted.None?);
            nodes := nodes[peer := link];
            break;
        }
      }
      if evicted.Some? {
        BeforeIrreflexive(link.connector);
        BeforeAsymmetric(link.connector, evicted.value.connector);
        shut := shut + {evicted.value.id};
        severed := severed + [peer];
      }
    }

    /**
     Which registered node a dial would end up at, as far as the table shows. Only full
     links count. A link under the claimed name is preferred to one a former dial of the same
     address ended at, and that to one whose peer advertises the address.
     */
    method LinkedPeerFor(claimed: string, addr: string) returns (linked: Option<string>)
      ensures linked.Some? ==> Answers(nodes, routes, claimed, addr, linked.value)
      ensures linked.None? ==> forall peer :: !Answers(nodes, routes, claimed, addr, peer)
      ensures Answers(nodes, routes, claimed, addr, claimed) ==> linked == Some(claimed)
      ensures && !(claimed in nodes && !nodes[claimed].guest)
              && addr in routes && routes[addr] in nodes && !nodes[routes[addr]].guest
              ==> linked == Some(routes[addr])
    {
      if claimed in nodes && !nodes[claimed].guest {
        return Some(claimed);
      }
      if addr in routes && routes[addr] in nodes && !nodes[routes[addr]].guest {
        return Some(routes[addr]);
      }
      var rest := nodes.Keys;
      while rest != {}
        invariant rest <= nodes.Keys
        invariant forall peer :: peer in nodes && peer !in rest ==>
                                   !(!nodes[peer].guest && addr != "" && nodes[peer].addr == addr)
        decreases |rest|
      {
        var peer :| peer in rest;
        if !nodes[peer].guest && nodes[peer].addr != "" && nodes[peer].addr == addr {
          return Some(peer);
        }
        rest := rest - {peer};
      }
      linked := None;
    }
  }
}
