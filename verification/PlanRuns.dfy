/**
 * Requests over runs, told from the wire and the plain fields: who is asked for what, in which order (swarm.rs,
 * `plan`).
 */
module PlanRuns {
  import opened Peers
  import opened Torrents
  import opened PieceManagers
  import opened Assignments
  import opened Registries
  import opened SwarmEvents
  import opened Scheduling
  import opened SwarmSpec
  import opened SwarmInvariants
  import opened Runs
  import M = Messages

  // ---- In plain terms ----

  /** What one peer has been asked for. */
  ghost function AskedOf(pairs: set<Pair>, addr: SocketAddr): set<Pair> {
    set p | p in pairs && p.addr == addr
  }

  /** Where one block has been asked for. */
  ghost function AskedFor(pairs: set<Pair>, b: BlockRange): set<Pair> {
    set p | p in pairs && p.block == b
  }

  /** The peer announced the piece, lets us have it, has not been asked for the block and has a slot left. */
  ghost predicate WillTake(reg: Registry, pairs: set<Pair>, b: BlockRange, addr: SocketAddr) {
    && b.pieceIndex in reg.byPiece && addr in reg.byPiece[b.pieceIndex]
    && addr in reg.peers && (!reg.peers[addr].peerChoking || b.pieceIndex in reg.peers[addr].allowedFast)
    && Pair(addr, b) !in pairs && |AskedOf(pairs, addr)| < 32
  }

  /** The offset where a piece ends in the torrent. */
  function EndOf(m: Metainfo, piece: nat): int {
    if piece == |m.pieces| - 1 then TotalSize(m) else (piece + 1) * m.pieceLength
  }

  /** Block `k` of a piece has not arrived: 16384 bytes, or what is left of the piece. */
  ghost predicate OpenAt(m: Metainfo, pieces: seq<PieceState>, b: BlockRange, k: nat) {
    && b.pieceIndex < |pieces| && pieces[b.pieceIndex].Partial?
    && k < |pieces[b.pieceIndex].blocks| && pieces[b.pieceIndex].blocks[k].Missing?
    && b.pieceOffset == k * 16384
    && var left := EndOf(m, b.pieceIndex) - b.pieceIndex * m.pieceLength - b.pieceOffset;
       b.len == if left < 16384 then left else 16384
  }

  ghost predicate Open(m: Metainfo, pieces: seq<PieceState>, b: BlockRange) {
    exists k: nat :: OpenAt(m, pieces, b, k)
  }

  ghost predicate Started(pieces: seq<PieceState>, p: nat) {
    p < |pieces| && pieces[p].Partial? && pieces[p].received > 0
  }

  ghost predicate Hinted(reg: Registry, p: nat) {
    exists a :: a in reg.peers && p in reg.peers[a].suggested
  }

  /**
   * Of two blocks with as many holders: a started piece comes before one that is not, then a suggested one before
   * one that is not, then the one fewer peers have, then the one with the smaller number; within a piece the
   * smaller offset.
   */
  ghost predicate ComesFirst(reg: Registry, pieces: seq<PieceState>, b: BlockRange, c: BlockRange) {
    var p, q := b.pieceIndex, c.pieceIndex;
    if p == q then b.pieceOffset < c.pieceOffset
    else
      && p in reg.byPiece && q in reg.byPiece
      && (|| (Started(pieces, p) && !Started(pieces, q))
          || (&& Started(pieces, p) == Started(pieces, q)
              && (|| (Hinted(reg, p) && !Hinted(reg, q))
                  || (&& Hinted(reg, p) == Hinted(reg, q)
                      && (|| |reg.byPiece[p]| < |reg.byPiece[q]|
                          || (|reg.byPiece[p]| == |reg.byPiece[q]| && p < q))))))
  }

  ghost predicate MoreDue(reg: Registry, pieces: seq<PieceState>, pairs: set<Pair>, b: BlockRange, c: BlockRange) {
    || |AskedFor(pairs, b)| < |AskedFor(pairs, c)|
    || (|AskedFor(pairs, b)| == |AskedFor(pairs, c)| && ComesFirst(reg, pieces, b, c))
  }

  /** Nobody will take the block at any time from the `i`-th output to the end of the step. */
  ghost predicate LeftOut(reg: Registry, before: set<Pair>, outs: seq<Output>, i: nat, b: BlockRange) {
    forall j, addr :: i <= j <= |outs| ==> !WillTake(reg, AfterSending(before, outs[..j]), b, addr)
  }

  /**
   * The `i`-th output asks a peer that will take it for an open block, after telling it our interest; and whatever
   * was more due than that block could not be asked of anyone, then or later in the step.
   */
  ghost predicate Fair(m: Metainfo, reg: Registry, pieces: seq<PieceState>, before: set<Pair>, outs: seq<Output>,
                       i: nat)
    requires i < |outs| && IsRequest(outs[i])
  {
    var addr, c, now := outs[i].addr, outs[i].message.range, AfterSending(before, outs[..i]);
    && Open(m, pieces, c) && WillTake(reg, now, c, addr)
    && |AskedFor(now, c)| <= |set a | a in reg.peers && !reg.peers[a].peerChoking|
    && i > 0 && outs[i - 1] == SendToPeer(addr, M.Interested)
    && forall b :: Open(m, pieces, b) && MoreDue(reg, pieces, now, b, c) ==> LeftOut(reg, before, outs, i, b)
  }

  /** The inputs after which requests are planned. */
  ghost predicate Replans(s: State, input: Input) {
    || input == OnTick(BlockTick)
    || (&& input.MessageReceived? && input.addr in s.reg.peers
        && (|| input.message.Unchoke? || input.message.Piece?
            || (input.message.AllowedFast? && s.reg.peers[input.addr].fast)))
  }

  function Requests(outs: seq<Output>): nat {
    if outs == [] then 0
    else Requests(outs[..|outs| - 1])
         + if outs[|outs| - 1].SendToPeer? && outs[|outs| - 1].message.Request? then 1 else 0
  }

  /** The free slots of the peers that unchoked us, 32 for each. */
  ghost function Slots(reg: Registry, pairs: set<Pair>): set<(SocketAddr, nat)> {
    set a, k: nat | a in reg.peers && !reg.peers[a].peerChoking && k < 32 && |AskedOf(pairs, a)| <= k :: (a, k)
  }

  // ---- The table and the wire ----

  lemma {:induction false} AddressesCounted(addrs: set<SocketAddr>, b: BlockRange)
    ensures |set a | a in addrs :: Pair(a, b)| == |addrs|
  {
    if addrs != {} {
      var x :| x in addrs;
      AddressesCounted(addrs - {x}, b);
      assert (set a | a in addrs :: Pair(a, b)) == (set a | a in addrs - {x} :: Pair(a, b)) + {Pair(x, b)};
    }
  }

  lemma {:induction false} BlocksCounted(blocks: set<BlockRange>, addr: SocketAddr)
    ensures |set b | b in blocks :: Pair(addr, b)| == |blocks|
  {
    if blocks != {} {
      var x :| x in blocks;
      BlocksCounted(blocks - {x}, addr);
      assert (set b | b in blocks :: Pair(addr, b)) == (set b | b in blocks - {x} :: Pair(addr, b)) + {Pair(addr, x)};
    }
  }

  lemma MirrorsCounts(pairs: set<Pair>, a: InFlight, b: BlockRange, addr: SocketAddr)
    requires Mirrors(pairs, a)
    ensures |AskedOf(pairs, addr)| == |HeldBy(a, addr)| && |AskedFor(pairs, b)| == Count(a, b)
    ensures Pair(addr, b) in pairs <==> IsHolder(a, b, addr)
  {
    BlocksCounted(HeldBy(a, addr), addr);
    AddressesCounted(Holders(a, b), b);
    assert AskedOf(pairs, addr) == set x | x in HeldBy(a, addr) :: Pair(addr, x);
    assert AskedFor(pairs, b) == set x | x in Holders(a, b) :: Pair(x, b) by {
      forall p ensures p in AskedFor(pairs, b) <==> p in set x | x in Holders(a, b) :: Pair(x, b) {
        assert p.block == b ==> p == Pair(p.addr, b);
      }
    }
  }

  lemma TakesIffEligible(reg: Registry, pairs: set<Pair>, a: InFlight, b: BlockRange, addr: SocketAddr)
    requires Mirrors(pairs, a)
    ensures WillTake(reg, pairs, b, addr) <==> Eligible(reg, a, b, addr)
  {
    MirrorsCounts(pairs, a, b, addr);
    hide Mirrors, AskedOf, HeldBy;
  }

  lemma OpenIsMissing(m: Metainfo, pieces: seq<PieceState>, b: BlockRange)
    requires PiecesOk(m, pieces)
    ensures Open(m, pieces, b) <==> IsMissing(m, pieces, b)
  {
    hide CountReceived, TotalSize;
    if b.pieceIndex < |pieces| {
      assert (b.pieceIndex + 1) * m.pieceLength == b.pieceIndex * m.pieceLength + m.pieceLength;
      assert EndOf(m, b.pieceIndex) - b.pieceIndex * m.pieceLength == PieceLen(m, b.pieceIndex);
    }
    if Open(m, pieces, b) {
      var k: nat :| OpenAt(m, pieces, b, k);
      BlockInterval(PieceLen(m, b.pieceIndex), k);
    }
    if IsMissing(m, pieces, b) {
      assert OpenAt(m, pieces, b, b.pieceOffset / BLOCK_SIZE);
    }
  }

  lemma FirstIsAhead(reg: Registry, pieces: seq<PieceState>, b: BlockRange, c: BlockRange)
    requires ComesFirst(reg, pieces, b, c)
    ensures Ahead(reg, pieces, b, c)
  {
  }

  lemma DueIsUrgent(sc: Scene, pairs: set<Pair>, a: InFlight, b: BlockRange, c: BlockRange)
    requires Mirrors(pairs, a) && MoreDue(sc.reg, sc.states, pairs, b, c)
    ensures MoreUrgent(sc, a, b, c)
  {
    hide Mirrors, AskedFor, Count, ComesFirst, Ahead;
    MirrorsCounts(pairs, a, b, V4(0, 0, 0, 0, 0));
    MirrorsCounts(pairs, a, c, V4(0, 0, 0, 0, 0));
    if ComesFirst(sc.reg, sc.states, b, c) {
      FirstIsAhead(sc.reg, sc.states, b, c);
    }
  }

  // ---- The outputs of a plan ----

  lemma {:induction false} PlanLength(rs: seq<BlockRequest>)
    ensures |RequestOutputs(rs)| == 2 * |rs| && Requests(RequestOutputs(rs)) == |rs|
  {
    if rs != [] {
      var init, last := RequestOutputs(rs[..|rs| - 1]), rs[|rs| - 1];
      PlanLength(rs[..|rs| - 1]);
      var outs := init + OutputsFor(last);
      assert outs[..|outs| - 1] == init + [SendToPeer(last.addr, M.Interested)];
      assert outs[..|outs| - 1][..|init|] == init;
    }
  }

  /** The requests occupy the odd places, each after the interest it repeats. */
  lemma {:induction false} PlanAt(rs: seq<BlockRequest>, n: nat)
    requires n <= |rs|
    ensures |RequestOutputs(rs)| == 2 * |rs| && RequestOutputs(rs)[..2 * n] == RequestOutputs(rs[..n])
    ensures n < |rs| ==> RequestOutputs(rs)[2 * n..2 * n + 2] == OutputsFor(rs[n])
    decreases |rs|
  {
    PlanLength(rs);
    if n == |rs| {
      assert rs[..n] == rs;
    } else {
      var init := rs[..|rs| - 1];
      PlanAt(init, n);
      PlanLength(init);
      assert init[..n] == rs[..n];
    }
  }

  /** A step's outputs: what the handler says, then a plan. */
  ghost predicate Splits(sc: Scene, now: set<Pair>, a: InFlight, rs: seq<BlockRequest>, outs: seq<Output>, k: nat) {
    && Mirrors(now, a) && AllSound(sc, a, rs) && PiecesOk(sc.m, sc.states)
    && k <= |outs| && NoRequests(outs[..k]) && outs[k..] == RequestOutputs(rs)
  }

  lemma SplitLength(sc: Scene, now: set<Pair>, a: InFlight, rs: seq<BlockRequest>, outs: seq<Output>, k: nat)
    requires Splits(sc, now, a, rs, outs, k)
    ensures |outs| == k + 2 * |rs|
  {
    hide Mirrors, AllSound, PiecesOk, NoRequests;
    PlanLength(rs);
  }

  /** After `k + 2 * n` outputs, and after one more, the first `n` requests are on the wire. */
  lemma MirrorsAt(sc: Scene, now: set<Pair>, a: InFlight, rs: seq<BlockRequest>, outs: seq<Output>, k: nat, j: nat)
    requires Splits(sc, now, a, rs, outs, k) && k <= j <= |outs|
    ensures (j - k) / 2 <= |rs| && Mirrors(AfterSending(now, outs[..j]), AssignAll(a, rs[..(j - k) / 2]))
  {
    hide *;
    SplitLength(sc, now, a, rs, outs, k);
    EvenMirrors(sc, now, a, rs, outs, k, (j - k) / 2);
    if (j - k) % 2 == 1 {
      InterestAt(sc, now, a, rs, outs, k, (j - k) / 2);
      var even := j - 1;
      assert outs[..j] == outs[..even] + [outs[even]];
      SendingAppends(now, outs[..even], [outs[even]]);
      OneNothing(AfterSending(now, outs[..even]), outs[even]);
    }
  }

  lemma OneNothing(pairs: set<Pair>, o: Output)
    requires !IsRequest(o)
    ensures AfterSending(pairs, [o]) == pairs
  {
    NothingRequested(pairs, [o]);
  }

  lemma EvenMirrors(sc: Scene, now: set<Pair>, a: InFlight, rs: seq<BlockRequest>, outs: seq<Output>, k: nat, n: nat)
    requires Splits(sc, now, a, rs, outs, k) && n <= |rs| && |outs| == k + 2 * |rs|
    ensures Mirrors(AfterSending(now, outs[..k + 2 * n]), AssignAll(a, rs[..n]))
  {
    hide Mirrors, AllSound, PiecesOk, AfterSending, AssignAll, RequestOutputs;
    assert outs[..k + 2 * n] == outs[..k] + outs[k..][..2 * n];
    PlanAt(rs, n);
    SendingAppends(now, outs[..k], RequestOutputs(rs[..n]));
    NothingRequested(now, outs[..k]);
    SoundPrefix(sc, a, rs, n);
    PlanOnWire(sc, now, a, rs[..n]);
  }

  lemma InterestAt(sc: Scene, now: set<Pair>, a: InFlight, rs: seq<BlockRequest>, outs: seq<Output>, k: nat, n: nat)
    requires Splits(sc, now, a, rs, outs, k) && n < |rs| && |outs| == k + 2 * |rs|
    ensures outs[k + 2 * n] == SendToPeer(rs[n].addr, M.Interested) && !IsRequest(outs[k + 2 * n])
    ensures outs[k + 2 * n + 1] == SendToPeer(rs[n].addr, M.Request(rs[n].block))
  {
    hide Mirrors, AllSound, PiecesOk, NoRequests, RequestOutputs;
    PlanAt(rs, n);
    assert outs[k..][2 * n..2 * n + 2] == outs[k + 2 * n..k + 2 * n + 2];
    assert outs[k + 2 * n..k + 2 * n + 2][0] == outs[k + 2 * n];
    assert outs[k + 2 * n..k + 2 * n + 2][1] == outs[k + 2 * n + 1];
  }

  /** A request among the outputs is one of the plan's. */
  lemma RequestIsAt(sc: Scene, now: set<Pair>, a: InFlight, rs: seq<BlockRequest>, outs: seq<Output>, k: nat, i: nat)
      returns (n: nat)
    requires Splits(sc, now, a, rs, outs, k) && i < |outs| && IsRequest(outs[i])
    ensures n < |rs| && i == k + 2 * n + 1 && |outs| == k + 2 * |rs|
    ensures outs[i] == SendToPeer(rs[n].addr, M.Request(rs[n].block))
    ensures outs[i - 1] == SendToPeer(rs[n].addr, M.Interested)
  {
    hide Mirrors, AllSound, PiecesOk, RequestOutputs;
    SplitLength(sc, now, a, rs, outs, k);
    assert forall x :: 0 <= x < k ==> outs[..k][x] == outs[x] && !IsRequest(outs[x]);
    n := (i - k) / 2;
    InterestAt(sc, now, a, rs, outs, k, n);
  }

  // ---- Fairness of one plan ----

  lemma PlanIsFair(sc: Scene, now: set<Pair>, a: InFlight, budget: nat, rs: seq<BlockRequest>, outs: seq<Output>,
                   k: nat, i: nat)
    requires Splits(sc, now, a, rs, outs, k) && i < |outs| && IsRequest(outs[i])
    requires IsPlan(sc, a, budget, rs) && sc.depth == |Unchoked(sc.reg)|
    ensures Fair(sc.m, sc.reg, sc.states, now, outs, i)
  {
    hide *;
    SplitPieces(sc, now, a, rs, outs, k);
    var n := RequestIsAt(sc, now, a, rs, outs, k, i);
    var pairs := AfterSending(now, outs[..i]);
    MirrorsAt(sc, now, a, rs, outs, k, i);
    assert (i - k) / 2 == n;
    RequestFits(sc, pairs, AssignAll(a, rs[..n]), a, rs, n);
    forall b | Open(sc.m, sc.states, b) && MoreDue(sc.reg, sc.states, pairs, b, rs[n].block)
      ensures LeftOut(sc.reg, now, outs, i, b) {
      OpenIsMissing(sc.m, sc.states, b);
      DueIsUrgent(sc, pairs, AssignAll(a, rs[..n]), b, rs[n].block);
      NoInversion(sc, a, budget, rs, n, b);
      StuckIsLeftOut(sc, now, a, rs, outs, k, n, b);
    }
    FairIs(sc.m, sc.reg, sc.states, now, outs, i);
  }

  lemma FairIs(m: Metainfo, reg: Registry, pieces: seq<PieceState>, before: set<Pair>, outs: seq<Output>, i: nat)
    requires 0 < i < |outs| && IsRequest(outs[i]) && outs[i - 1] == SendToPeer(outs[i].addr, M.Interested)
    requires var now, c := AfterSending(before, outs[..i]), outs[i].message.range;
      && Open(m, pieces, c) && WillTake(reg, now, c, outs[i].addr)
      && |AskedFor(now, c)| <= |set a | a in reg.peers && !reg.peers[a].peerChoking|
      && forall b :: Open(m, pieces, b) && MoreDue(reg, pieces, now, b, c) ==> LeftOut(reg, before, outs, i, b)
    ensures Fair(m, reg, pieces, before, outs, i)
  {
    hide Open, WillTake, AskedFor, MoreDue, LeftOut, AfterSending;
  }

  lemma SplitPieces(sc: Scene, now: set<Pair>, a: InFlight, rs: seq<BlockRequest>, outs: seq<Output>, k: nat)
    requires Splits(sc, now, a, rs, outs, k)
    ensures PiecesOk(sc.m, sc.states) && AllSound(sc, a, rs)
  {
    hide Mirrors, AllSound, PiecesOk, NoRequests, RequestOutputs;
  }

  lemma RequestFits(sc: Scene, pairs: set<Pair>, at: InFlight, a: InFlight, rs: seq<BlockRequest>, n: nat)
    requires AllSound(sc, a, rs) && n < |rs| && at == AssignAll(a, rs[..n]) && Mirrors(pairs, at)
    requires PiecesOk(sc.m, sc.states) && sc.depth == |Unchoked(sc.reg)|
    ensures Open(sc.m, sc.states, rs[n].block) && WillTake(sc.reg, pairs, rs[n].block, rs[n].addr)
    ensures |AskedFor(pairs, rs[n].block)| <= |set a | a in sc.reg.peers && !sc.reg.peers[a].peerChoking|
  {
    hide AssignAll, Mirrors, PiecesOk, Open, WillTake, AskedFor, Count, Eligible, IsMissing;
    assert Sound(sc, at, rs[n]);
    OpenIsMissing(sc.m, sc.states, rs[n].block);
    TakesIffEligible(sc.reg, pairs, at, rs[n].block, rs[n].addr);
    MirrorsCounts(pairs, at, rs[n].block, rs[n].addr);
    assert Unchoked(sc.reg) == set a | a in sc.reg.peers && !sc.reg.peers[a].peerChoking;
  }

  lemma StuckIsLeftOut(sc: Scene, now: set<Pair>, a: InFlight, rs: seq<BlockRequest>, outs: seq<Output>, k: nat,
                       n: nat, b: BlockRange)
    requires Splits(sc, now, a, rs, outs, k) && n < |rs| && |outs| == k + 2 * |rs|
    requires forall l :: n <= l <= |rs| ==> Stuck(sc.reg, AssignAll(a, rs[..l]), b)
    ensures LeftOut(sc.reg, now, outs, k + 2 * n + 1, b)
  {
    hide Splits, AssignAll, AfterSending, WillTake, Eligible, Mirrors;
    forall j, addr | k + 2 * n + 1 <= j <= |outs| ensures !WillTake(sc.reg, AfterSending(now, outs[..j]), b, addr) {
      var l := (j - k) / 2;
      MirrorsAt(sc, now, a, rs, outs, k, j);
      TakesIffEligible(sc.reg, AfterSending(now, outs[..j]), AssignAll(a, rs[..l]), b, addr);
      assert Stuck(sc.reg, AssignAll(a, rs[..l]), b);
    }
  }

  // ---- One step ----

  /** Planning from `s1`: a split of the outputs into what the handler says and a plan. */
  ghost predicate PlansFrom(c: Config, s1: State, now: set<Pair>, outs: seq<Output>, s': State, k: nat,
                            rs: seq<BlockRequest>) {
    && Splits(SceneOf(c, s1), now, s1.inFlight, rs, outs, k)
    && IsPlan(SceneOf(c, s1), s1.inFlight, Budget(s1), rs)
    && s'.reg == s1.reg && s'.pieces == s1.pieces && s'.status == s1.status && s1.status.Downloads()
  }

  lemma PlannedFrom(c: Config, s1: State, now: set<Pair>, outs: seq<Output>, k: nat, s': State)
      returns (rs: seq<BlockRequest>)
    requires k <= |outs| && Planned(c, s1, outs[k..], s') && s1.status.Downloads() && NoRequests(outs[..k])
    requires Mirrors(now, s1.inFlight) && PiecesOk(c.metainfo, s1.pieces)
    ensures PlansFrom(c, s1, now, outs, s', k, rs)
  {
    hide Mirrors, PiecesOk, NoRequests, IsPlan, AllSound, RequestOutputs, AssignAll, AfterSending, Budget;
    rs :| PlansWith(c, s1, rs, outs[k..], s');
    PlanSound(SceneOf(c, s1), s1.inFlight, Budget(s1), rs);
  }

  lemma PlanSound(sc: Scene, a: InFlight, budget: nat, rs: seq<BlockRequest>)
    requires IsPlan(sc, a, budget, rs)
    ensures AllSound(sc, a, rs)
  {
  }

  /** Replanning when downloading is on makes a plan from the state in which the handler left the swarm. */
  lemma StepPlans(c: Config, s: State, input: Input, outs: seq<Output>, s': State, pairs: set<Pair>)
      returns (s1: State, k: nat, rs: seq<BlockRequest>)
    requires Inv(c, s) && Next(c, s, input, outs, s') && Mirrors(pairs, s.inFlight)
    requires Replans(s, input) && s.status.Downloads()
    ensures PlansFrom(c, s1, AfterInput(pairs, input, outs), outs, s', k, rs)
  {
    hide Inv, Planned, OnMessage, PlansFrom, Mirrors;
    if input == OnTick(BlockTick) {
      s1, k := s, 0;
      assert outs[0..] == outs && NoRequests(outs[..0]);
      InvPieces(c, s);
      rs := PlannedFrom(c, s1, pairs, outs, 0, s');
    } else {
      s1, k, rs := MessagePlans(c, s, input.addr, input.message, outs, s', pairs);
    }
  }

  lemma InvPieces(c: Config, s: State)
    requires Inv(c, s)
    ensures PiecesOk(c.metainfo, s.pieces)
  {
  }

  lemma MessagePlans(c: Config, s: State, addr: SocketAddr, msg: M.Message, outs: seq<Output>, s': State,
                     pairs: set<Pair>) returns (s1: State, k: nat, rs: seq<BlockRequest>)
    requires Inv(c, s) && OnMessage(c, s, addr, msg, outs, s') && Mirrors(pairs, s.inFlight)
    requires Replans(s, MessageReceived(addr, msg)) && s.status.Downloads()
    ensures PlansFrom(c, s1, AfterInput(pairs, MessageReceived(addr, msg), outs), outs, s', k, rs)
  {
    var applied := ApplyMessage(s.reg, |c.metainfo.pieces|, addr, msg);
    hide Inv, Handled, Mirrors, PlansFrom, Planned, AfterMessage, AfterInput, MessageOutputs;
    var s0 := s.(reg := applied.value);
    k :| Handled(c, s0, addr, msg, k, outs, s');
    AfterMessageKeeps(c, s, addr, msg);
    s1 := AfterMessage(c, s0, addr, msg);
    rs := HandledPlans(c, s0, addr, msg, k, outs, s', pairs);
  }

  lemma HandledPlans(c: Config, s: State, addr: SocketAddr, msg: M.Message, k: nat, outs: seq<Output>, s': State,
                     pairs: set<Pair>) returns (rs: seq<BlockRequest>)
    requires Ready(c, s) && Handled(c, s, addr, msg, k, outs, s') && Mirrors(pairs, s.inFlight)
    requires (msg.Unchoke? || msg.Piece? || msg.AllowedFast?) && s.status.Downloads()
    requires Inv(c, AfterMessage(c, s, addr, msg))
    ensures PlansFrom(c, AfterMessage(c, s, addr, msg), AfterInput(pairs, MessageReceived(addr, msg), outs), outs, s',
                      k, rs)
  {
    hide Inv, Mirrors, PlansFrom, Planned, AfterMessage, AfterInput, MessageOutputs, Ready;
    HandlerTransfersNothing(c, s, addr, msg, outs[..k]);
    HandlerMirrors(c, s, addr, msg, outs, pairs);
    HandlerKeepsStatus(c, s, addr, msg);
    InvPieces(c, AfterMessage(c, s, addr, msg));
    rs := PlannedFrom(c, AfterMessage(c, s, addr, msg), AfterInput(pairs, MessageReceived(addr, msg), outs), outs, k,
                      s');
  }

  lemma HandlerKeepsStatus(c: Config, s: State, addr: SocketAddr, msg: M.Message)
    requires Ready(c, s)
    ensures AfterMessage(c, s, addr, msg).status == s.status
  {
    hide Receipt, FateOf, Ready;
  }

  /** No other step sends a request. */
  lemma StepRequestsNothing(c: Config, s: State, input: Input, outs: seq<Output>, s': State)
    requires Inv(c, s) && Next(c, s, input, outs, s') && !(Replans(s, input) && s.status.Downloads())
    ensures NoRequests(outs)
  {
    hide Inv, OnConnected, OnMessage, Planned, OnReadCompleted, OnSetStatus, OnPexTick, Discovered, Cancels;
    match input
    case PeerConnected(id, direction, addr, ext) =>
      ConnectionTransfersNothing(c, s, addr, direction, id, ext, outs, s');
    case PeerDisconnected(addr) => CancelsOnlyCancel(s.pending, Orphaned(s.pending, addr), outs);
    case MessageReceived(addr, msg) => MessageRequestsNothing(c, s, addr, msg, outs, s');
    case OnTick(BlockTick) => PlannedOff(c, s, outs, s');
    case _ => QuietInput(c, s, input, outs, s');
  }

  lemma PlannedOff(c: Config, s: State, outs: seq<Output>, s': State)
    requires Planned(c, s, outs, s') && !s.status.Downloads()
    ensures outs == [] && s' == s
  {
  }

  lemma MessageRequestsNothing(c: Config, s: State, addr: SocketAddr, msg: M.Message, outs: seq<Output>, s': State)
    requires Inv(c, s) && OnMessage(c, s, addr, msg, outs, s')
    requires !(Replans(s, MessageReceived(addr, msg)) && s.status.Downloads())
    ensures NoRequests(outs)
  {
    var applied := ApplyMessage(s.reg, |c.metainfo.pieces|, addr, msg);
    hide Inv, Handled, AfterMessage, Planned, MessageOutputs, Ready;
    if applied.Ok? {
      var s0 := s.(reg := applied.value);
      InvReady(c, s);
      SameReady(c, s, s0);
      var k: nat :| Handled(c, s0, addr, msg, k, outs, s');
      HandledRequestsNothing(c, s0, addr, msg, k, outs, s');
    }
  }

  lemma InvReady(c: Config, s: State)
    requires Inv(c, s)
    ensures Ready(c, s)
  {
  }

  lemma HandledRequestsNothing(c: Config, s: State, addr: SocketAddr, msg: M.Message, k: nat, outs: seq<Output>,
                               s': State)
    requires Ready(c, s) && Handled(c, s, addr, msg, k, outs, s')
    requires !((msg.Unchoke? || msg.Piece? || msg.AllowedFast?) && s.status.Downloads())
    ensures NoRequests(outs)
  {
    hide AfterMessage, Planned, MessageOutputs, Ready;
    HandlerTransfersNothing(c, s, addr, msg, outs[..k]);
    HandlerKeepsStatus(c, s, addr, msg);
    assert outs == outs[..k] + outs[k..];
    if msg.AffectsScheduling() {
      PlannedOff(c, AfterMessage(c, s, addr, msg), outs[k..], s');
    }
  }

  lemma StepIsFair(c: Config, s: State, input: Input, outs: seq<Output>, s': State, pairs: set<Pair>, i: nat)
    requires Inv(c, s) && Next(c, s, input, outs, s') && Mirrors(pairs, s.inFlight)
    requires i < |outs| && IsRequest(outs[i])
    ensures Replans(s, input) && (s'.status.Active? || s'.status.DownloadOnly?)
    ensures Fair(c.metainfo, s'.reg, s'.pieces, AfterInput(pairs, input, outs), outs, i)
  {
    hide Inv, Next, Mirrors, Fair, AfterInput, Splits, IsPlan, AfterSending;
    if !(Replans(s, input) && s.status.Downloads()) {
      StepRequestsNothing(c, s, input, outs, s');
    }
    var s1, k, rs := StepPlans(c, s, input, outs, s', pairs);
    PlanIsFair(SceneOf(c, s1), AfterInput(pairs, input, outs), s1.inFlight, Budget(s1), rs, outs, k, i);
  }

  // ---- Maximality ----

  /** Every open block with no more holders than there are peers that unchoked us cannot be asked of anyone. */
  ghost predicate NothingLeft(m: Metainfo, reg: Registry, pieces: seq<PieceState>, pairs: set<Pair>) {
    forall b, addr ::
      Open(m, pieces, b) && |AskedFor(pairs, b)| <= |set a | a in reg.peers && !reg.peers[a].peerChoking| ==>
        !WillTake(reg, pairs, b, addr)
  }

  lemma {:induction false} RequestsAppend(xs: seq<Output>, ys: seq<Output>)
    ensures Requests(xs + ys) == Requests(xs) + Requests(ys)
  {
    if ys == [] {
      assert xs + ys == xs;
    } else {
      assert (xs + ys)[..|xs + ys| - 1] == xs + ys[..|ys| - 1];
      RequestsAppend(xs, ys[..|ys| - 1]);
    }
  }

  lemma {:induction false} NoneCounted(outs: seq<Output>)
    requires NoRequests(outs)
    ensures Requests(outs) == 0
  {
    if outs != [] {
      assert outs[|outs| - 1] in outs;
      NoneCounted(outs[..|outs| - 1]);
    }
  }

  ghost function Entries<K(!new), V(!new)>(f: map<K, set<V>>): set<(K, V)> {
    set k, v | k in f && v in f[k] :: (k, v)
  }

  lemma {:induction false} RowSize<K, V>(x: K, vs: set<V>)
    ensures |set v | v in vs :: (x, v)| == |vs|
  {
    if vs != {} {
      var y :| y in vs;
      RowSize(x, vs - {y});
      assert (set v | v in vs :: (x, v)) == (set v | v in vs - {y} :: (x, v)) + {(x, y)};
    }
  }

  lemma EntriesRemove<K(!new), V(!new)>(f: map<K, set<V>>, x: K)
    requires x in f
    ensures |Entries(f)| == |f[x]| + |Entries(f - {x})|
  {
    var row, rest := set v | v in f[x] :: (x, v), Entries(f - {x});
    RowSize(x, f[x]);
    assert Entries(f) == row + rest && row !! rest;
  }

  /** A sum over a table of sets counts its entries. */
  lemma {:induction false} TotalCounts<K(!new), V(!new)>(f: map<K, set<V>>, ns: map<K, nat>)
    requires ns.Keys == f.Keys && forall k :: k in f ==> ns[k] == |f[k]|
    ensures Total(ns) == |Entries(f)|
    decreases |f|
  {
    if f == map[] {
      assert ns == map[];
      assert Entries(f) == {};
    } else {
      var x :| x in f;
      hide Total, Entries;
      TotalRemove(ns, x);
      EntriesRemove(f, x);
      TotalCounts(f - {x}, ns - {x});
    }
  }

  /** The slot numbers from `used` on. */
  function SlotsFrom(used: nat): (r: set<nat>)
    ensures forall k: nat :: k in r <==> used <= k < 32
    ensures |r| == if used < 32 then 32 - used else 0
    decreases 32 - used
  {
    if used >= 32 then {} else {used} + SlotsFrom(used + 1)
  }

  ghost function SlotSets(reg: Registry, pairs: set<Pair>): map<SocketAddr, set<nat>> {
    map a | a in Unchoked(reg) :: SlotsFrom(|AskedOf(pairs, a)|)
  }

  lemma SlotsListed(reg: Registry, pairs: set<Pair>)
    ensures Entries(SlotSets(reg, pairs)) == Slots(reg, pairs)
  {
    hide AskedOf;
  }

  lemma SlotsCounted(s: State, pairs: set<Pair>)
    requires Mirrors(pairs, s.inFlight)
    ensures var ns, f := SlotsTable(s), SlotSets(s.reg, pairs);
      ns.Keys == f.Keys && forall a :: a in f ==> ns[a] == |f[a]|
  {
    hide Mirrors, AskedOf, HeldBy;
    forall a ensures |AskedOf(pairs, a)| == |HeldBy(s.inFlight, a)| {
      MirrorsCounts(pairs, s.inFlight, BlockRange(0, 0, 0), a);
    }
  }

  lemma BudgetIsSlots(s: State, pairs: set<Pair>)
    requires Mirrors(pairs, s.inFlight)
    ensures Budget(s) == |Slots(s.reg, pairs)|
  {
    hide Mirrors, SlotsTable, SlotSets, Slots, Total, Entries;
    SlotsCounted(s, pairs);
    SlotsListed(s.reg, pairs);
    TotalCounts(SlotSets(s.reg, pairs), SlotsTable(s));
  }

  /** A plan uses up all slots, or leaves nothing that could be asked for. */
  lemma PlanIsMaximal(c: Config, s1: State, now: set<Pair>, outs: seq<Output>, s': State, k: nat,
                      rs: seq<BlockRequest>)
    requires PlansFrom(c, s1, now, outs, s', k, rs)
    ensures Requests(outs) <= |Slots(s'.reg, now)|
    ensures Requests(outs) == |Slots(s'.reg, now)|
      || NothingLeft(c.metainfo, s'.reg, s'.pieces, AfterSending(now, outs))
  {
    var sc := SceneOf(c, s1);
    hide Mirrors, AfterSending, AllSound, PiecesOk, NoRequests, RequestOutputs, Budget, Slots, NothingLeft, Exhausted;
    assert outs == outs[..k] + outs[k..];
    RequestsAppend(outs[..k], outs[k..]);
    NoneCounted(outs[..k]);
    PlanLength(rs);
    BudgetIsSlots(s1, now);
    if Requests(outs) != |Slots(s'.reg, now)| {
      SplitMirrors(sc, now, s1.inFlight, rs, outs, k);
      ExhaustedIsNothingLeft(sc, AfterSending(now, outs), AssignAll(s1.inFlight, rs));
    }
  }

  lemma SplitMirrors(sc: Scene, now: set<Pair>, a: InFlight, rs: seq<BlockRequest>, outs: seq<Output>, k: nat)
    requires Splits(sc, now, a, rs, outs, k)
    ensures Mirrors(AfterSending(now, outs), AssignAll(a, rs))
  {
    hide *;
    SplitLength(sc, now, a, rs, outs, k);
    SplitBounds(sc, now, a, rs, outs, k);
    MirrorsAt(sc, now, a, rs, outs, k, |outs|);
    assert outs[..|outs|] == outs && rs[..|rs|] == rs;
  }

  lemma SplitBounds(sc: Scene, now: set<Pair>, a: InFlight, rs: seq<BlockRequest>, outs: seq<Output>, k: nat)
    requires Splits(sc, now, a, rs, outs, k)
    ensures k <= |outs|
  {
  }

  lemma ExhaustedIsNothingLeft(sc: Scene, pairs: set<Pair>, a: InFlight)
    requires Exhausted(sc, a) && Mirrors(pairs, a) && PiecesOk(sc.m, sc.states) && sc.depth == |Unchoked(sc.reg)|
    ensures NothingLeft(sc.m, sc.reg, sc.states, pairs)
  {
    hide Mirrors, PiecesOk, Open, WillTake, AskedFor, Count, Eligible, IsMissing;
    forall b, addr
      | Open(sc.m, sc.states, b) && |AskedFor(pairs, b)| <= |set a | a in sc.reg.peers && !sc.reg.peers[a].peerChoking|
      ensures !WillTake(sc.reg, pairs, b, addr) {
      OpenIsMissing(sc.m, sc.states, b);
      TakesIffEligible(sc.reg, pairs, a, b, addr);
      MirrorsCounts(pairs, a, b, addr);
      assert Unchoked(sc.reg) == set a | a in sc.reg.peers && !sc.reg.peers[a].peerChoking;
    }
  }

  // ---- Over runs ----

  /**
   * Every request of every run follows an input that replans while downloading is on, and is fair: no block was
   * more due that anyone would have taken, at that moment or until the step ends.
   */
  lemma EveryRequestIsFair(c: Config, init: State, tr: Trace, i: nat)
    requires Run(c, init, tr) && tr != []
    requires var outs := tr[|tr| - 1].outs; i < |outs| && IsRequest(outs[i])
    ensures var step, before := tr[|tr| - 1], Last(init, Init(tr));
      && Replans(before, step.input) && (step.after.status.Active? || step.after.status.DownloadOnly?)
      && Fair(c.metainfo, step.after.reg, step.after.pieces, AfterInput(Outstanding(Init(tr)), step.input, step.outs),
              step.outs, i)
  {
    var step, before := tr[|tr| - 1], Last(init, Init(tr));
    hide Next, Inv, Mirrors, AfterInput, Fair, Replans;
    InFlightIsOutstanding(c, init, Init(tr));
    RunInv(c, init, Init(tr));
    StepIsFair(c, before, step.input, step.outs, step.after, Outstanding(Init(tr)), i);
  }

  /**
   * Whenever a run replans while downloading is on, it fills every slot of the peers that unchoked us or leaves
   * nothing that anyone would take, up to as many holders as there are such peers.
   */
  lemma EveryPlanIsMaximal(c: Config, init: State, tr: Trace)
    requires Run(c, init, tr) && tr != []
    requires var before := Last(init, Init(tr));
      Replans(before, tr[|tr| - 1].input) && (before.status.Active? || before.status.DownloadOnly?)
    ensures var step := tr[|tr| - 1];
      var now := AfterInput(Outstanding(Init(tr)), step.input, step.outs);
      && Requests(step.outs) <= |Slots(step.after.reg, now)|
      && (|| Requests(step.outs) == |Slots(step.after.reg, now)|
          || NothingLeft(c.metainfo, step.after.reg, step.after.pieces, Outstanding(tr)))
  {
    var step, before := tr[|tr| - 1], Last(init, Init(tr));
    hide Next, Inv, Mirrors, AfterInput, Replans, PlansFrom, Slots, NothingLeft;
    InFlightIsOutstanding(c, init, Init(tr));
    RunInv(c, init, Init(tr));
    var s1, k, rs := StepPlans(c, before, step.input, step.outs, step.after, Outstanding(Init(tr)));
    PlanIsMaximal(c, s1, AfterInput(Outstanding(Init(tr)), step.input, step.outs), step.outs, step.after, k, rs);
  }
}
