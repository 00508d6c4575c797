/** The scheduling policy (swarm.rs, `plan`): which blocks are requested from whom, and in what order. */
module Scheduling {
  import opened Peers
  import opened Torrents
  import opened PieceManagers
  import opened Assignments
  import opened Registries
  import opened SwarmEvents
  import opened Wrappers
  import Messages

  datatype BlockRequest = BlockRequest(addr: SocketAddr, block: BlockRange)

  function AssignAll(a: InFlight, rs: seq<BlockRequest>): InFlight {
    if rs == [] then a
    else AssignTo(AssignAll(a, rs[..|rs| - 1]), rs[|rs| - 1].block, rs[|rs| - 1].addr)
  }

  // ---- What the policy promises ----

  /** The peers `pick_peer` chooses from. */
  predicate Eligible(reg: Registry, a: InFlight, b: BlockRange, addr: SocketAddr) {
    && Has(reg.byPiece, b.pieceIndex, addr) && CanServe(reg, addr, b.pieceIndex)
    && FreeSlots(a, addr) > 0 && !IsHolder(a, b, addr)
  }

  ghost predicate Stuck(reg: Registry, a: InFlight, b: BlockRange) {
    forall addr :: !Eligible(reg, a, b, addr)
  }

  /** Partial pieces first, then suggested, then rarest; ties keep the piece order. */
  predicate Precedes(reg: Registry, states: seq<PieceState>, p: nat, q: nat) {
    if IsPartial(states, p) != IsPartial(states, q) then IsPartial(states, p)
    else if IsSuggested(reg, p) != IsSuggested(reg, q) then IsSuggested(reg, p)
    else if Rarity(reg.byPiece, p) != Rarity(reg.byPiece, q) then Rarity(reg.byPiece, p) < Rarity(reg.byPiece, q)
    else p < q
  }

  predicate Ahead(reg: Registry, states: seq<PieceState>, b: BlockRange, c: BlockRange) {
    if b.pieceIndex != c.pieceIndex then Precedes(reg, states, b.pieceIndex, c.pieceIndex)
    else b.pieceOffset < c.pieceOffset
  }

  /** What one call schedules from: the peers, the pieces, and the deepest replication it considers. */
  datatype Scene = Scene(m: Metainfo, reg: Registry, states: seq<PieceState>, depth: nat)

  /** `b` has strictly more need of a holder than `c`: fewer holders, or as many and an earlier place. */
  ghost predicate MoreUrgent(sc: Scene, a: InFlight, b: BlockRange, c: BlockRange) {
    Count(a, b) < Count(a, c) || (Count(a, b) == Count(a, c) && Ahead(sc.reg, sc.states, b, c))
  }

  /** A request is made to an eligible peer, and nothing more urgent could have been requested instead. */
  ghost predicate Sound(sc: Scene, a: InFlight, r: BlockRequest) {
    && IsMissing(sc.m, sc.states, r.block) && Eligible(sc.reg, a, r.block, r.addr) && Count(a, r.block) <= sc.depth
    && forall b :: IsMissing(sc.m, sc.states, b) && MoreUrgent(sc, a, b, r.block) ==> Stuck(sc.reg, a, b)
  }

  ghost predicate AllSound(sc: Scene, a: InFlight, rs: seq<BlockRequest>) {
    forall k :: 0 <= k < |rs| ==> Sound(sc, AssignAll(a, rs[..k]), rs[k])
  }

  /** No block of at most `depth` holders can get another one. */
  ghost predicate Exhausted(sc: Scene, a: InFlight) {
    forall b :: IsMissing(sc.m, sc.states, b) && Count(a, b) <= sc.depth ==> Stuck(sc.reg, a, b)
  }

  ghost predicate IsPlan(sc: Scene, a: InFlight, budget: nat, rs: seq<BlockRequest>) {
    && AllSound(sc, a, rs) && |rs| <= budget
    && (|rs| == budget || Exhausted(sc, AssignAll(a, rs)))
  }

  // ---- Facts about requests ----

  /** A peer that cannot take a block now cannot take it later in the same call. */
  lemma StuckStays(reg: Registry, a: InFlight, b: BlockRange, r: BlockRequest)
    requires Stuck(reg, a, b) && !IsHolder(a, r.block, r.addr)
    ensures Stuck(reg, AssignTo(a, r.block, r.addr), b)
  {
    forall addr ensures !Eligible(reg, AssignTo(a, r.block, r.addr), b, addr) {
      assert !Eligible(reg, a, b, addr);
      AssignFills(a, r.block, r.addr, addr);
    }
  }

  lemma AssignFills(a: InFlight, b: BlockRange, addr: SocketAddr, other: SocketAddr)
    ensures HeldBy(a, other) <= HeldBy(AssignTo(a, b, addr), other)
    ensures |HeldBy(a, other)| <= |HeldBy(AssignTo(a, b, addr), other)|
    ensures FreeSlots(AssignTo(a, b, addr), other) <= FreeSlots(a, other)
  {
    var held, now := HeldBy(a, other), HeldBy(AssignTo(a, b, addr), other);
    assert now == held || now == held + {b};
  }

  lemma AssignAllMore(a: InFlight, rs: seq<BlockRequest>, r: BlockRequest)
    ensures AssignAll(a, rs + [r]) == AssignTo(AssignAll(a, rs), r.block, r.addr)
  {
    assert (rs + [r])[..|rs|] == rs;
  }

  lemma SoundMore(sc: Scene, a: InFlight, rs: seq<BlockRequest>, r: BlockRequest)
    requires AllSound(sc, a, rs) && Sound(sc, AssignAll(a, rs), r)
    ensures AllSound(sc, a, rs + [r])
  {
    hide Sound, AssignAll;
    forall k | 0 <= k < |rs + [r]| ensures Sound(sc, AssignAll(a, (rs + [r])[..k]), (rs + [r])[k]) {
      assert (rs + [r])[..k] == rs[..k];
      assert k == |rs| ==> rs[..k] == rs;
    }
  }

  lemma {:induction false} StuckForRest(sc: Scene, a: InFlight, rs: seq<BlockRequest>, k: nat, b: BlockRange)
    requires AllSound(sc, a, rs) && k <= |rs| && Stuck(sc.reg, AssignAll(a, rs[..k]), b)
    ensures Stuck(sc.reg, AssignAll(a, rs), b)
    decreases |rs|
  {
    if k == |rs| {
      assert rs[..k] == rs;
    } else {
      var init, last := rs[..|rs| - 1], rs[|rs| - 1];
      assert init[..k] == rs[..k];
      AllSoundPrefix(sc, a, rs);
      StuckForRest(sc, a, init, k, b);
      assert Eligible(sc.reg, AssignAll(a, init), last.block, last.addr);
      hide AllSound, Sound, Stuck, Eligible;
      StuckStays(sc.reg, AssignAll(a, init), b, last);
    }
  }

  lemma AllSoundPrefix(sc: Scene, a: InFlight, rs: seq<BlockRequest>)
    requires rs != [] && AllSound(sc, a, rs)
    ensures AllSound(sc, a, rs[..|rs| - 1]) && Sound(sc, AssignAll(a, rs[..|rs| - 1]), rs[|rs| - 1])
  {
    var init := rs[..|rs| - 1];
    hide Sound, AssignAll;
    forall k | 0 <= k < |init| ensures Sound(sc, AssignAll(a, init[..k]), init[k]) {
      assert init[..k] == rs[..k];
    }
  }

  /**
   * No inversion of replication or priority: a block that was more urgent than the `k`-th request when it
   * was made could not be served then, nor can it be at any time until the call ends.
   */
  lemma NoInversion(sc: Scene, a: InFlight, budget: nat, rs: seq<BlockRequest>, k: nat, b: BlockRange)
    requires IsPlan(sc, a, budget, rs) && k < |rs| && IsMissing(sc.m, sc.states, b)
    requires MoreUrgent(sc, AssignAll(a, rs[..k]), b, rs[k].block)
    ensures forall n :: k <= n <= |rs| ==> Stuck(sc.reg, AssignAll(a, rs[..n]), b)
  {
    hide *;
    SoundAt(sc, a, budget, rs, k, b);
    forall n | k <= n <= |rs| ensures Stuck(sc.reg, AssignAll(a, rs[..n]), b) {
      SoundPrefix(sc, a, rs, n);
      assert rs[..n][..k] == rs[..k];
      StuckForRest(sc, a, rs[..n], k, b);
    }
  }

  lemma SoundAt(sc: Scene, a: InFlight, budget: nat, rs: seq<BlockRequest>, k: nat, b: BlockRange)
    requires IsPlan(sc, a, budget, rs) && k < |rs| && IsMissing(sc.m, sc.states, b)
    requires MoreUrgent(sc, AssignAll(a, rs[..k]), b, rs[k].block)
    ensures AllSound(sc, a, rs) && Stuck(sc.reg, AssignAll(a, rs[..k]), b)
  {
    hide AssignAll, MoreUrgent, IsMissing, Stuck, Exhausted;
    assert Sound(sc, AssignAll(a, rs[..k]), rs[k]);
  }

  lemma SoundPrefix(sc: Scene, a: InFlight, rs: seq<BlockRequest>, n: nat)
    requires AllSound(sc, a, rs) && n <= |rs|
    ensures AllSound(sc, a, rs[..n])
  {
    hide Sound, AssignAll;
    forall j | 0 <= j < n ensures Sound(sc, AssignAll(a, rs[..n][..j]), rs[..n][j]) {
      assert rs[..n][..j] == rs[..j];
    }
  }

  // ---- The order of the work list ----

  lemma PrecedesTotal(reg: Registry, states: seq<PieceState>, p: nat, q: nat)
    ensures p != q ==> Precedes(reg, states, p, q) || Precedes(reg, states, q, p)
    ensures !(Precedes(reg, states, p, q) && Precedes(reg, states, q, p))
  {
  }

  lemma PrecedesTransitive(reg: Registry, states: seq<PieceState>, p: nat, q: nat, r: nat)
    requires Precedes(reg, states, p, q) && Precedes(reg, states, q, r)
    ensures Precedes(reg, states, p, r)
  {
    hide IsPartial, IsSuggested, Rarity;
  }

  ghost predicate InOrder(reg: Registry, states: seq<PieceState>, ps: seq<nat>) {
    forall i, j :: 0 <= i < j < |ps| ==> Precedes(reg, states, ps[i], ps[j])
  }

  /** Inserting a piece before the first one it precedes. */
  method InsertPiece(reg: Registry, states: seq<PieceState>, ps: seq<nat>, p: nat) returns (order: seq<nat>)
    requires InOrder(reg, states, ps) && p !in ps
    ensures InOrder(reg, states, order)
    ensures forall q :: q in order <==> q == p || q in ps
  {
    var at := 0;
    while at < |ps| && !Precedes(reg, states, p, ps[at])
      invariant at <= |ps| && forall i :: 0 <= i < at ==> !Precedes(reg, states, p, ps[i])
    {
      at := at + 1;
    }
    order := ps[..at] + [p] + ps[at..];
    forall i | 0 <= i < |ps|
      ensures if i < at then Precedes(reg, states, ps[i], p) else Precedes(reg, states, p, ps[i]) {
      PrecedesTotal(reg, states, p, ps[i]);
      if at < i {
        PrecedesTransitive(reg, states, p, ps[at], ps[i]);
      }
    }
    InsertedInOrder(reg, states, ps, p, at);
  }

  lemma InsertedInOrder(reg: Registry, states: seq<PieceState>, ps: seq<nat>, p: nat, at: nat)
    requires InOrder(reg, states, ps) && at <= |ps|
    requires forall i :: 0 <= i < |ps| ==>
      if i < at then Precedes(reg, states, ps[i], p) else Precedes(reg, states, p, ps[i])
    ensures InOrder(reg, states, ps[..at] + [p] + ps[at..])
    ensures forall q :: q in ps[..at] + [p] + ps[at..] <==> q == p || q in ps
  {
    hide Precedes;
    var order := ps[..at] + [p] + ps[at..];
    forall i, j | 0 <= i < j < |order| ensures Precedes(reg, states, order[i], order[j]) {
      assert order[i] == if i < at then ps[i] else if i == at then p else ps[i - 1];
      assert order[j] == if j < at then ps[j] else if j == at then p else ps[j - 1];
    }
    assert ps == ps[..at] + ps[at..];
  }

  /** `sort_by_cached_key` over the pieces still needed. */
  method SortNeeded(reg: Registry, states: seq<PieceState>) returns (order: seq<nat>)
    ensures InOrder(reg, states, order)
    ensures forall p: nat :: p in order <==> p < |states| && !states[p].Complete?
  {
    var needed := Needed(states, 0);
    NeededIsListing(states, 0);
    order := [];
    for i := 0 to |needed|
      invariant InOrder(reg, states, order)
      invariant forall p :: p in order <==> p in needed[..i]
    {
      order := InsertPiece(reg, states, order, needed[i]);
    }
    assert needed[..|needed|] == needed;
  }

  ghost predicate WorkInOrder(sc: Scene, blocks: seq<BlockRange>) {
    forall i, j :: 0 <= i < j < |blocks| ==> Ahead(sc.reg, sc.states, blocks[i], blocks[j])
  }

  lemma {:induction false} MissingFromAscends(length: nat, piece: nat, blocks: seq<BlockState>, k: nat)
    requires |blocks| <= BlockCount(length) && k <= |blocks|
    ensures forall b :: b in MissingFrom(length, piece, blocks, k) ==>
      b.pieceIndex == piece && k * BLOCK_SIZE <= b.pieceOffset
    ensures forall i, j :: 0 <= i < j < |MissingFrom(length, piece, blocks, k)| ==>
      MissingFrom(length, piece, blocks, k)[i].pieceOffset < MissingFrom(length, piece, blocks, k)[j].pieceOffset
    decreases |blocks| - k
  {
    if k < |blocks| {
      MissingFromAscends(length, piece, blocks, k + 1);
      var later := MissingFrom(length, piece, blocks, k + 1);
      forall j | 0 <= j < |later| ensures k * BLOCK_SIZE < later[j].pieceOffset {
        assert later[j] in later;
      }
    }
  }

  lemma WorkMore(sc: Scene, blocks: seq<BlockRange>, more: seq<BlockRange>, p: nat)
    requires PiecesOk(sc.m, sc.states) && more == UnreceivedBlocks(sc.m, sc.states, p)
    requires WorkInOrder(sc, blocks) && forall b :: b in blocks ==>
      b.pieceIndex != p && Precedes(sc.reg, sc.states, b.pieceIndex, p)
    ensures WorkInOrder(sc, blocks + more)
  {
    if p < |sc.states| && sc.states[p].Partial? {
      MissingFromAscends(PieceLen(sc.m, p), p, sc.states[p].blocks, 0);
    }
    hide Precedes, UnreceivedBlocks, PiecesOk;
    forall i, j | 0 <= i < j < |blocks + more|
      ensures Ahead(sc.reg, sc.states, (blocks + more)[i], (blocks + more)[j]) {
      if j >= |blocks| {
        assert more[j - |blocks|] in more;
        if i < |blocks| {
          assert blocks[i] in blocks;
        } else {
          assert more[i - |blocks|] in more;
        }
      }
    }
  }

  /** The blocks to consider, most urgent piece first and in piece order within it. */
  method WorkList(sc: Scene) returns (blocks: seq<BlockRange>)
    requires PiecesOk(sc.m, sc.states)
    ensures WorkInOrder(sc, blocks)
    ensures forall b :: b in blocks <==> IsMissing(sc.m, sc.states, b)
  {
    hide Precedes, PiecesOk, IsMissing, UnreceivedBlocks;
    var order := SortNeeded(sc.reg, sc.states);
    blocks := [];
    for i := 0 to |order|
      invariant WorkInOrder(sc, blocks)
      invariant forall b :: b in blocks <==> b.pieceIndex in order[..i] && IsMissing(sc.m, sc.states, b)
    {
      var more := UnreceivedBlocks(sc.m, sc.states, order[i]);
      UnreceivedAreMissing(sc.m, sc.states, order[i]);
      forall b | b in blocks ensures b.pieceIndex != order[i] && Precedes(sc.reg, sc.states, b.pieceIndex, order[i]) {
        var j :| 0 <= j < i && order[j] == b.pieceIndex;
        PrecedesTotal(sc.reg, sc.states, order[i], order[i]);
      }
      WorkMore(sc, blocks, more, order[i]);
      blocks := blocks + more;
    }
    forall b | IsMissing(sc.m, sc.states, b) ensures b.pieceIndex in order {
      MissingIsIncomplete(sc, b);
    }
    assert order[..|order|] == order;
  }

  lemma MissingIsIncomplete(sc: Scene, b: BlockRange)
    requires IsMissing(sc.m, sc.states, b)
    ensures b.pieceIndex < |sc.states| && !sc.states[b.pieceIndex].Complete?
  {
  }

  /** What comes ahead of an entry of the work list stands before it in the list. */
  lemma AheadIsBefore(sc: Scene, blocks: seq<BlockRange>, i: nat, j: nat)
    requires WorkInOrder(sc, blocks) && i < |blocks| && j < |blocks|
    requires Ahead(sc.reg, sc.states, blocks[i], blocks[j])
    ensures i < j
  {
    PrecedesTotal(sc.reg, sc.states, blocks[i].pieceIndex, blocks[j].pieceIndex);
  }

  // ---- The loops ----

  /** What a plan sends. */
  function RequestOutputs(rs: seq<BlockRequest>): seq<Output> {
    if rs == [] then []
    else RequestOutputs(rs[..|rs| - 1]) + OutputsFor(rs[|rs| - 1])
  }

  /** `send_request`: interest is repeated before every request. */
  function OutputsFor(r: BlockRequest): seq<Output> {
    [SendToPeer(r.addr, Messages.Interested), SendToPeer(r.addr, Messages.Request(r.block))]
  }

  lemma RequestOutputsMore(rs: seq<BlockRequest>, r: BlockRequest)
    ensures RequestOutputs(rs + [r]) == RequestOutputs(rs) + OutputsFor(r)
  {
    assert (rs + [r])[..|rs|] == rs;
  }

  method PickPeer(reg: Registry, a: InFlight, b: BlockRange) returns (r: Option<SocketAddr>)
    ensures r == None ==> Stuck(reg, a, b)
    ensures r.Some? ==> Eligible(reg, a, b, r.value)
  {
    var candidates :=
      if b.pieceIndex !in reg.byPiece then {}
      else set addr | addr in reg.byPiece[b.pieceIndex] && Eligible(reg, a, b, addr);
    if candidates == {} {
      forall addr ensures !Eligible(reg, a, b, addr) {
        assert addr !in candidates;
      }
      return None;
    }
    var addr :| addr in candidates;
    return Some(addr);
  }

  /** Progress of the sweep at depth `h` that has visited the first `j` blocks. */
  ghost predicate Swept(sc: Scene, a: InFlight, blocks: seq<BlockRange>, h: nat, j: nat)
    requires j <= |blocks|
  {
    && (forall b :: b in blocks && Count(a, b) < h ==> Stuck(sc.reg, a, b))
    && (forall i :: 0 <= i < j && Count(a, blocks[i]) == h ==> Stuck(sc.reg, a, blocks[i]))
  }

  ghost predicate IsWork(sc: Scene, blocks: seq<BlockRange>) {
    WorkInOrder(sc, blocks) && forall b :: b in blocks <==> IsMissing(sc.m, sc.states, b)
  }

  /** At depth `h` the block under the cursor is the most urgent one that can still be requested. */
  lemma CursorIsSound(sc: Scene, a: InFlight, blocks: seq<BlockRange>, j: nat, addr: SocketAddr)
    requires IsWork(sc, blocks) && j < |blocks| && Count(a, blocks[j]) <= sc.depth
    requires Swept(sc, a, blocks, Count(a, blocks[j]), j) && Eligible(sc.reg, a, blocks[j], addr)
    ensures Sound(sc, a, BlockRequest(addr, blocks[j]))
  {
    hide Eligible, IsMissing, Ahead, Count;
    forall b | IsMissing(sc.m, sc.states, b) && MoreUrgent(sc, a, b, blocks[j]) ensures Stuck(sc.reg, a, b) {
      assert b in blocks;
      if Count(a, b) == Count(a, blocks[j]) {
        var i :| 0 <= i < |blocks| && blocks[i] == b;
        AheadIsBefore(sc, blocks, i, j);
      }
    }
  }

  /** Giving the block under the cursor its next holder keeps what the sweep has established. */
  lemma AssignKeepsSwept(sc: Scene, a: InFlight, blocks: seq<BlockRange>, h: nat, j: nat, r: BlockRequest)
    requires j < |blocks| && Swept(sc, a, blocks, h, j) && r.block == blocks[j] && Count(a, r.block) == h
    requires !IsHolder(a, r.block, r.addr)
    ensures Swept(sc, AssignTo(a, r.block, r.addr), blocks, h, j + 1)
  {
    var a' := AssignTo(a, r.block, r.addr);
    AssignCounts(a, r.block, r.addr);
    hide Eligible, Count, AssignTo, Stuck;
    forall b | b in blocks && Count(a', b) < h ensures Stuck(sc.reg, a', b) {
      StuckStays(sc.reg, a, b, r);
    }
    forall i | 0 <= i < j + 1 && Count(a', blocks[i]) == h ensures Stuck(sc.reg, a', blocks[i]) {
      assert blocks[i] != r.block;
      StuckStays(sc.reg, a, blocks[i], r);
    }
  }

  lemma SkipKeepsSwept(sc: Scene, a: InFlight, blocks: seq<BlockRange>, h: nat, j: nat)
    requires j < |blocks| && Swept(sc, a, blocks, h, j)
    requires Count(a, blocks[j]) != h || Stuck(sc.reg, a, blocks[j])
    ensures Swept(sc, a, blocks, h, j + 1)
  {
  }

  lemma NextDepth(sc: Scene, a: InFlight, blocks: seq<BlockRange>, h: nat)
    requires Swept(sc, a, blocks, h, |blocks|)
    ensures Swept(sc, a, blocks, h + 1, 0)
  {
    hide Count, Stuck;
    forall b | b in blocks && Count(a, b) < h + 1 ensures Stuck(sc.reg, a, b) {
      var i :| 0 <= i < |blocks| && blocks[i] == b;
    }
  }

  /** What the variables of a planning call mean after the requests made so far. */
  ghost predicate Planning(sc: Scene, before: InFlight, total: nat, now: InFlight,
                           holders: map<BlockRange, int>, budget: nat, rs: seq<BlockRequest>, outputs: seq<Output>)
  {
    && now == AssignAll(before, rs) && CountsAre(holders, now)
    && AllSound(sc, before, rs) && |rs| + budget == total
    && outputs == RequestOutputs(rs)
  }

  /** One more holder for a block: the table, the count, the budget and the outputs move together. */
  lemma RequestKeepsPlanning(sc: Scene, before: InFlight, total: nat, now: InFlight,
                             holders: map<BlockRange, int>, budget: nat, rs: seq<BlockRequest>, outputs: seq<Output>,
                             r: BlockRequest)
    requires Planning(sc, before, total, now, holders, budget, rs, outputs) && budget > 0 && Sound(sc, now, r)
    ensures Planning(sc, before, total, AssignTo(now, r.block, r.addr), holders[r.block := At(holders, r.block) + 1],
                     budget - 1, rs + [r], outputs + OutputsFor(r))
  {
    AssignCounts(now, r.block, r.addr);
    hide AssignTo, Count, AllSound;
    AssignAllMore(before, rs, r);
    SoundMore(sc, before, rs, r);
    RequestOutputsMore(rs, r);
  }

  /** The pass of `plan` over the work list that serves the blocks with exactly `replication` holders. */
  method SweepDepth(sc: Scene, assignments: BlockAssignments, blocks: seq<BlockRange>, replication: nat,
                    ghost before: InFlight, ghost total: nat,
                    holders0: map<BlockRange, int>, budget0: nat, ghost rs0: seq<BlockRequest>, outputs0: seq<Output>)
      returns (holders: map<BlockRange, int>, budget: nat, ghost rs: seq<BlockRequest>, outputs: seq<Output>)
    requires IsWork(sc, blocks) && replication <= sc.depth
    requires Planning(sc, before, total, assignments.byPeer, holders0, budget0, rs0, outputs0)
    requires Swept(sc, assignments.byPeer, blocks, replication, 0)
    modifies assignments
    ensures Planning(sc, before, total, assignments.byPeer, holders, budget, rs, outputs)
    ensures budget <= budget0 && (budget == 0 || Swept(sc, assignments.byPeer, blocks, replication, |blocks|))
    ensures Exhausted(sc, old(assignments.byPeer)) ==> budget == budget0
    ensures budget == budget0 ==> assignments.byPeer == old(assignments.byPeer)
  {
    holders, budget, rs, outputs := holders0, budget0, rs0, outputs0;
    hide *;
    var j := 0;
    while j < |blocks| && budget > 0
      invariant j <= |blocks| && budget <= budget0
      invariant Planning(sc, before, total, assignments.byPeer, holders, budget, rs, outputs)
      invariant Swept(sc, assignments.byPeer, blocks, replication, j)
      invariant budget == budget0 ==> assignments.byPeer == old(assignments.byPeer)
      invariant Exhausted(sc, old(assignments.byPeer)) ==> budget == budget0
    {
      var block := blocks[j];
      HoldersAt(sc, before, total, assignments.byPeer, holders, budget, rs, outputs, block);
      if At(holders, block) != replication {
        SkipKeepsSwept(sc, assignments.byPeer, blocks, replication, j);
      } else {
        var addr := PickPeer(sc.reg, assignments.byPeer, block);
        if addr == None {
          SkipKeepsSwept(sc, assignments.byPeer, blocks, replication, j);
        } else {
          var r := BlockRequest(addr.value, block);
          CursorIsSound(sc, assignments.byPeer, blocks, j, addr.value);
          NotExhausted(sc, assignments.byPeer, r);
          RequestKeepsPlanning(sc, before, total, assignments.byPeer, holders, budget, rs, outputs, r);
          AssignKeepsSwept(sc, assignments.byPeer, blocks, replication, j, r);
          budget := budget - 1;
          holders := holders[block := At(holders, block) + 1];
          assignments.Assign(block, addr.value);
          outputs := outputs + OutputsFor(r);
          rs := rs + [r];
        }
      }
      j := j + 1;
    }
  }

  /**
   * The sweeps of `plan` over replication depths, from low to high, until one makes no progress. Two
   * sweeps are always enough.
   */
  method PlanRequests(sc: Scene, assignments: BlockAssignments, blocks: seq<BlockRange>, total: nat)
      returns (outputs: seq<Output>, ghost rs: seq<BlockRequest>, ghost sweeps: nat)
    requires IsWork(sc, blocks)
    modifies assignments
    ensures IsPlan(sc, old(assignments.byPeer), total, rs) && sweeps <= 2
    ensures assignments.byPeer == AssignAll(old(assignments.byPeer), rs) && outputs == RequestOutputs(rs)
  {
    ghost var before := assignments.byPeer;
    var budget := total;
    var holders := assignments.HolderCounts();
    outputs, rs, sweeps := [], [], 0;
    var progressed := true;
    PlanningStarts(sc, before, total, holders);
    hide *;
    while budget > 0 && progressed
      invariant Planning(sc, before, total, assignments.byPeer, holders, budget, rs, outputs)
      invariant sweeps <= 2 && (sweeps == 0 ==> progressed)
      invariant sweeps > 0 ==> budget == 0 || Exhausted(sc, assignments.byPeer)
      invariant sweeps == 2 ==> budget == 0 || !progressed
      decreases 2 - sweeps
    {
      progressed := false;
      ghost var settled := sweeps > 0;
      FirstDepth(sc, assignments.byPeer, blocks);
      var replication := 0;
      while replication <= sc.depth && budget > 0
        invariant replication <= sc.depth + 1
        invariant Planning(sc, before, total, assignments.byPeer, holders, budget, rs, outputs)
        invariant budget == 0 || Swept(sc, assignments.byPeer, blocks, replication, 0)
        invariant settled ==> Exhausted(sc, assignments.byPeer) && !progressed && budget > 0
      {
        var left := budget;
        holders, budget, rs, outputs :=
          SweepDepth(sc, assignments, blocks, replication, before, total, holders, budget, rs, outputs);
        if budget < left {
          progressed := true;
        }
        if budget > 0 {
          NextDepth(sc, assignments.byPeer, blocks, replication);
        }
        replication := replication + 1;
      }
      if budget > 0 {
        AllDepths(sc, assignments.byPeer, blocks);
      }
      sweeps := sweeps + 1;
    }
    PlanningEnds(sc, before, total, assignments.byPeer, holders, budget, rs, outputs);
  }

  lemma PlanningStarts(sc: Scene, before: InFlight, total: nat, holders: map<BlockRange, int>)
    requires CountsAre(holders, before)
    ensures Planning(sc, before, total, before, holders, total, [], [])
  {
  }

  lemma PlanningEnds(sc: Scene, before: InFlight, total: nat, now: InFlight,
                     holders: map<BlockRange, int>, budget: nat, rs: seq<BlockRequest>, outputs: seq<Output>)
    requires Planning(sc, before, total, now, holders, budget, rs, outputs)
    requires budget == 0 || Exhausted(sc, now)
    ensures IsPlan(sc, before, total, rs) && now == AssignAll(before, rs) && outputs == RequestOutputs(rs)
  {
  }

  lemma FirstDepth(sc: Scene, a: InFlight, blocks: seq<BlockRange>)
    ensures Swept(sc, a, blocks, 0, 0)
  {
  }

  lemma HoldersAt(sc: Scene, before: InFlight, total: nat, now: InFlight,
                  holders: map<BlockRange, int>, budget: nat, rs: seq<BlockRequest>, outputs: seq<Output>,
                  b: BlockRange)
    requires Planning(sc, before, total, now, holders, budget, rs, outputs)
    ensures At(holders, b) == Count(now, b)
  {
  }

  /** Once everything within reach is exhausted no further request is possible. */
  lemma NotExhausted(sc: Scene, a: InFlight, r: BlockRequest)
    requires Sound(sc, a, r)
    ensures !Exhausted(sc, a) && !IsHolder(a, r.block, r.addr)
  {
    assert Eligible(sc.reg, a, r.block, r.addr);
  }

  lemma AllDepths(sc: Scene, a: InFlight, blocks: seq<BlockRange>)
    requires IsWork(sc, blocks) && Swept(sc, a, blocks, sc.depth + 1, 0)
    ensures Exhausted(sc, a)
  {
  }
}
