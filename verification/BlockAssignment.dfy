/** Requests in flight, peer by peer (swarm/block_assignment.rs). The instants they were sent at are never read back. */
module Assignments {
  import opened Peers

  type InFlight = map<SocketAddr, set<BlockRange>>

  const MAX_IN_FLIGHT_PER_PEER: nat := 32

  function HeldBy(a: InFlight, addr: SocketAddr): set<BlockRange> {
    if addr in a then a[addr] else {}
  }

  predicate IsHolder(a: InFlight, b: BlockRange, addr: SocketAddr) {
    b in HeldBy(a, addr)
  }

  function AssignTo(a: InFlight, b: BlockRange, addr: SocketAddr): InFlight {
    a[addr := HeldBy(a, addr) + {b}]
  }

  function UnassignFrom(a: InFlight, b: BlockRange, addr: SocketAddr): InFlight {
    if addr in a then a[addr := a[addr] - {b}] else a
  }

  function Release(a: InFlight, addr: SocketAddr): InFlight {
    a - {addr}
  }

  function FreeSlots(a: InFlight, addr: SocketAddr): nat {
    if |HeldBy(a, addr)| >= MAX_IN_FLIGHT_PER_PEER then 0 else MAX_IN_FLIGHT_PER_PEER - |HeldBy(a, addr)|
  }

  /** The peers a block has been requested from. */
  function Holders(a: InFlight, b: BlockRange): set<SocketAddr> {
    set addr | addr in a && b in a[addr]
  }

  function Count(a: InFlight, b: BlockRange): nat { |Holders(a, b)| }

  /** A fresh request adds one holder to its block and changes no other count. */
  lemma AssignCounts(a: InFlight, b: BlockRange, addr: SocketAddr)
    requires !IsHolder(a, b, addr)
    ensures Count(AssignTo(a, b, addr), b) == Count(a, b) + 1
    ensures forall c :: c != b ==> Count(AssignTo(a, b, addr), c) == Count(a, c)
  {
    assert Holders(AssignTo(a, b, addr), b) == Holders(a, b) + {addr};
    forall c | c != b ensures Count(AssignTo(a, b, addr), c) == Count(a, c) {
      OtherHolders(a, b, c, addr);
    }
  }

  lemma OtherHolders(a: InFlight, b: BlockRange, c: BlockRange, addr: SocketAddr)
    requires c != b
    ensures Holders(AssignTo(a, b, addr), c) == Holders(a, c)
  {
  }

  /** `*counts.get(&b).unwrap_or(0)`. */
  function At(counts: map<BlockRange, int>, b: BlockRange): int {
    if b in counts then counts[b] else 0
  }

  /** A map of counts that agrees with the table on every block. */
  ghost predicate CountsAre(counts: map<BlockRange, int>, a: InFlight) {
    forall b :: At(counts, b) == Count(a, b)
  }

  /** Holders among the peers visited so far, used by the counting loop. */
  ghost function HoldersAmong(a: InFlight, b: BlockRange, seen: set<SocketAddr>): set<SocketAddr> {
    Holders(a, b) * seen
  }

  class BlockAssignments {
    var byPeer: InFlight

    constructor ()
      ensures byPeer == map[]
    {
      byPeer := map[];
    }

    /** One more holder of one block. The peer has one slot less unless it was asked for the block already. */
    method Assign(b: BlockRange, addr: SocketAddr)
      modifies this
      ensures forall b', a :: IsHolder(byPeer, b', a) <==> IsHolder(old(byPeer), b', a) || (a == addr && b' == b)
      ensures !IsHolder(old(byPeer), b, addr) ==> Count(byPeer, b) == Count(old(byPeer), b) + 1
      ensures byPeer == AssignTo(old(byPeer), b, addr)
    {
      if !IsHolder(byPeer, b, addr) {
        AssignCounts(byPeer, b, addr);
      }
      byPeer := byPeer[addr := HeldBy(byPeer, addr) + {b}];
    }

    /** The pair is gone and every other pair stays. */
    method Unassign(b: BlockRange, addr: SocketAddr)
      modifies this
      ensures forall b', a :: IsHolder(byPeer, b', a) <==> IsHolder(old(byPeer), b', a) && !(a == addr && b' == b)
      ensures byPeer == UnassignFrom(old(byPeer), b, addr)
    {
      if addr in byPeer {
        byPeer := byPeer[addr := byPeer[addr] - {b}];
      }
    }

    /** The peer holds nothing, so all its slots are free, and every other pair stays. */
    method ReleasePeer(addr: SocketAddr)
      modifies this
      ensures forall b, a :: IsHolder(byPeer, b, a) <==> IsHolder(old(byPeer), b, a) && a != addr
      ensures FreeSlots(byPeer, addr) == MAX_IN_FLIGHT_PER_PEER
      ensures byPeer == Release(old(byPeer), addr)
    {
      byPeer := byPeer - {addr};
    }

    /** `holder_counts`: one pass over every request in flight. */
    method HolderCounts() returns (counts: map<BlockRange, int>)
      ensures CountsAre(counts, byPeer)
    {
      counts := map[];
      var peers := byPeer.Keys;
      ghost var seen: set<SocketAddr> := {};
      while peers != {}
        invariant peers <= byPeer.Keys && seen == byPeer.Keys - peers
        invariant forall b :: At(counts, b) == |HoldersAmong(byPeer, b, seen)|
        decreases |peers|
      {
        var addr :| addr in peers;
        counts := CountBlocks(counts, byPeer[addr]);
        forall b ensures At(counts, b) == |HoldersAmong(byPeer, b, seen + {addr})| {
          AddSeen(byPeer, b, seen, addr);
        }
        peers, seen := peers - {addr}, seen + {addr};
      }
      forall b ensures HoldersAmong(byPeer, b, seen) == Holders(byPeer, b) {
      }
    }
  }

  /** The inner loop of `holder_counts`. */
  method CountBlocks(before: map<BlockRange, int>, held: set<BlockRange>) returns (counts: map<BlockRange, int>)
    ensures forall b :: At(counts, b) == At(before, b) + if b in held then 1 else 0
  {
    counts := before;
    var blocks := held;
    while blocks != {}
      invariant blocks <= held
      invariant forall b :: At(counts, b) == At(before, b) + if b in held && b !in blocks then 1 else 0
      decreases |blocks|
    {
      var b :| b in blocks;
      counts := counts[b := At(counts, b) + 1];
      blocks := blocks - {b};
    }
  }

  lemma AddSeen(a: InFlight, b: BlockRange, seen: set<SocketAddr>, addr: SocketAddr)
    requires addr in a && addr !in seen
    ensures |HoldersAmong(a, b, seen + {addr})| == |HoldersAmong(a, b, seen)| + if b in a[addr] then 1 else 0
  {
    if b in a[addr] {
      assert HoldersAmong(a, b, seen + {addr}) == HoldersAmong(a, b, seen) + {addr};
    } else {
      assert HoldersAmong(a, b, seen + {addr}) == HoldersAmong(a, b, seen);
    }
  }
}
