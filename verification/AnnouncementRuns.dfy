/** What a remote peer learns about our pieces from the messages we send it. */
module AnnouncementRuns {
  import opened Bytes
  import opened Peers
  import opened Listings
  import opened PieceManagers
  import opened Registries
  import opened Scheduling
  import opened SwarmEvents
  import opened SwarmSpec
  import opened SwarmInvariants
  import opened Runs
  import opened StoreRuns
  import M = Messages
  import X = ExtensionMessages
  import Bitfields

  // ---- The remote side ----

  /** The pieces a registry records for one peer. */
  function Recorded(byPiece: Availability, addr: SocketAddr): set<nat> {
    set p | p in byPiece && addr in byPiece[p]
  }

  function ClaimAll(claim: set<nat>, total: nat, msgs: seq<M.Message>): set<nat> {
    if msgs == [] then claim
    else ClaimAfter(ClaimAll(claim, total, msgs[..|msgs| - 1]), total, msgs[|msgs| - 1])
  }

  /** A registry that applies the messages of one peer in order; a rejected one changes nothing. */
  function ApplyAll(r: Registry, total: nat, addr: SocketAddr, msgs: seq<M.Message>): Registry {
    if msgs == [] then r
    else
      var before := ApplyAll(r, total, addr, msgs[..|msgs| - 1]);
      match ApplyMessage(before, total, addr, msgs[|msgs| - 1])
      case Ok(after) => after
      case Err(_) => before
  }

  ghost predicate Listens(r: Registry, addr: SocketAddr, msgs: seq<M.Message>) {
    addr in r.peers && forall i :: 0 <= i < |msgs| && msgs[i].NeedsFast() ==> r.peers[addr].fast
  }

  lemma RecordedAfter(byPiece: Availability, total: nat, addr: SocketAddr, msg: M.Message)
    ensures Recorded(IndexAfter(byPiece, total, addr, msg), addr) == ClaimAfter(Recorded(byPiece, addr), total, msg)
  {
    RemovalHas(byPiece, addr);
    var after := IndexAfter(byPiece, total, addr, msg);
    forall p ensures p in Recorded(after, addr) <==> p in ClaimAfter(Recorded(byPiece, addr), total, msg) {
      assert p in Recorded(byPiece, addr) <==> Has(byPiece, p, addr);
      assert p in Recorded(after, addr) <==> Has(after, p, addr);
    }
  }

  /** Applied in order, the messages make the registry record exactly what they claim. */
  lemma {:induction false} RecordedIsClaimed(r: Registry, total: nat, addr: SocketAddr, msgs: seq<M.Message>)
    requires Listens(r, addr, msgs)
    ensures var r' := ApplyAll(r, total, addr, msgs);
      && addr in r'.peers && r'.peers[addr].fast == r.peers[addr].fast
      && Recorded(r'.byPiece, addr) == ClaimAll(Recorded(r.byPiece, addr), total, msgs)
  {
    if msgs != [] {
      var init, last := msgs[..|msgs| - 1], msgs[|msgs| - 1];
      RecordedIsClaimed(r, total, addr, init);
      hide Recorded, IndexAfter, ClaimAfter, SeederIn;
      RecordedAfter(ApplyAll(r, total, addr, init).byPiece, total, addr, last);
    }
  }

  // ---- Our side ----

  /** The messages broadcast by a step, in order. */
  function Broadcasts(outs: seq<Output>): seq<M.Message> {
    if outs == [] then []
    else Broadcasts(outs[..|outs| - 1]) + if outs[|outs| - 1].Broadcast? then [outs[|outs| - 1].message] else []
  }

  /** The messages broadcast from step `k` of a run on. */
  function BroadcastsFrom(tr: Trace, k: nat): seq<M.Message>
    decreases |tr|
  {
    if k >= |tr| then [] else BroadcastsFrom(Init(tr), k) + Broadcasts(tr[|tr| - 1].outs)
  }

  lemma {:induction false} BroadcastsAppend(xs: seq<Output>, ys: seq<Output>)
    ensures Broadcasts(xs + ys) == Broadcasts(xs) + Broadcasts(ys)
  {
    if ys == [] {
      assert xs + ys == xs;
    } else {
      assert (xs + ys)[..|xs + ys| - 1] == xs + ys[..|ys| - 1];
      BroadcastsAppend(xs, ys[..|ys| - 1]);
    }
  }

  lemma {:induction false} QuietBroadcasts(outs: seq<Output>)
    requires Quiet(outs)
    ensures Broadcasts(outs) == []
  {
    if outs != [] {
      QuietBroadcasts(outs[..|outs| - 1]);
    }
  }

  lemma DeliveryBroadcasts(c: Config, s: State, outs: seq<Output>, s': State, i: nat, data: bytes, rest: seq<Output>)
    requires Ready(c, s) && Delivers(c, s, outs, s', i, data, rest)
    ensures Broadcasts(outs) == [M.Have(i)]
  {
    var head := [Broadcast(M.Have(i)), WritePiece(BlockRange(i, 0, |data|), data)];
    var last := Finish(AllComplete(s'.pieces));
    BroadcastsAppend(head + last, rest);
    BroadcastsAppend(head, last);
    QuietBroadcasts(rest);
    assert head[..1][..0] == [];
    assert Broadcasts(head[..1]) == [M.Have(i)];
    assert last != [] ==> last[..0] == [];
  }

  /** A step that is not fed from the store broadcasts exactly the pieces it completes. */
  lemma StepAnnounces(c: Config, s: State, input: Input, outs: seq<Output>, s': State, claim: set<nat>)
    requires Ready(c, s) && Next(c, s, input, outs, s') && !input.LocalPiece?
    ensures ClaimAll(claim, |c.metainfo.pieces|, Broadcasts(outs))
        == claim + (CompleteSet(s'.pieces) - CompleteSet(s.pieces))
    ensures forall i :: 0 <= i < |Broadcasts(outs)| ==> Broadcasts(outs)[i].Have?
  {
    StepKinds(c, s, input, outs, s');
    hide Next, Ready, Quiet, Broadcasts;
    if Idle(s, outs, s') {
      QuietBroadcasts(outs);
    } else {
      var k: nat, data: bytes, rest: seq<Output> :| Delivers(c, s, outs, s', k, data, rest);
      hide Delivers, CompleteSet, ClaimAll;
      DeliveryBroadcasts(c, s, outs, s', k, data, rest);
      DeliveryClaims(c, s, outs, s', k, data, rest, claim);
    }
  }

  lemma DeliveryClaims(c: Config, s: State, outs: seq<Output>, s': State, i: nat, data: bytes, rest: seq<Output>,
                       claim: set<nat>)
    requires Ready(c, s) && Delivers(c, s, outs, s', i, data, rest)
    ensures ClaimAll(claim, |c.metainfo.pieces|, [M.Have(i)])
        == claim + (CompleteSet(s'.pieces) - CompleteSet(s.pieces))
  {
    assert [M.Have(i)][..0] == [];
    assert i !in CompleteSet(s.pieces);
  }

  lemma {:induction false} ClaimAppend(claim: set<nat>, total: nat, xs: seq<M.Message>, ys: seq<M.Message>)
    ensures ClaimAll(claim, total, xs + ys) == ClaimAll(ClaimAll(claim, total, xs), total, ys)
  {
    if ys == [] {
      assert xs + ys == xs;
    } else {
      assert (xs + ys)[..|xs + ys| - 1] == xs + ys[..|ys| - 1];
      ClaimAppend(claim, total, xs, ys[..|ys| - 1]);
    }
  }

  /**
   * Whichever message is chosen, the remote end then holds exactly the complete pieces for us, and a bitfield
   * has no spare bit set. Only `HaveAll` leaves what an earlier connection recorded, and adds every piece to it.
   */
  lemma AnnouncementIsExact(pieces: seq<PieceState>, fast: bool, message: M.Message)
    requires Announces(pieces, fast, message)
    ensures forall prior ::
      ClaimAfter(prior, |pieces|, message) == CompleteSet(pieces) + Stray(prior, |pieces|, message)
    ensures message.NeedsFast() ==> fast
    ensures message.Bitfield? ==> Bitfields.SpareBitsZero(message.bits, |pieces|)
  {
    if message.HaveAll? {
      assert CompleteSet(pieces) == Upto(|pieces|);
    } else if message.HaveNone? {
      assert CompleteSet(pieces) == {};
    }
  }

  /** What a remote end recorded for us before that a greeting does not clear: numbers of no piece, under `HaveAll`. */
  function Stray(prior: set<nat>, total: nat, greeting: M.Message): set<nat> {
    if greeting.HaveAll? then prior - Upto(total) else {}
  }

  /** The pieces that local data completed from step `k` on. */
  ghost function RestoredSince(init: State, tr: Trace, k: nat): set<nat>
    decreases |tr|
  {
    if k >= |tr| then {}
    else
      RestoredSince(init, Init(tr), k) +
      if tr[|tr| - 1].input.LocalPiece? then
        CompleteSet(Last(init, tr).pieces) - CompleteSet(Last(init, Init(tr)).pieces)
      else {}
  }

  /** The broadcasts from step `k` on claim exactly the pieces completed since by blocks from peers. */
  ghost predicate Followed(c: Config, init: State, tr: Trace, k: nat, claim: set<nat>)
    requires k <= |tr|
  {
    var before, after := CompleteSet(Last(init, tr[..k]).pieces), CompleteSet(Last(init, tr).pieces);
    var restored := RestoredSince(init, tr, k);
    && before <= after && restored <= after - before
    && ClaimAll(claim, |c.metainfo.pieces|, BroadcastsFrom(tr, k)) == claim + (after - before - restored)
    && forall i :: 0 <= i < |BroadcastsFrom(tr, k)| ==> BroadcastsFrom(tr, k)[i].Have?
  }

  lemma {:induction false} BroadcastsFollow(c: Config, init: State, tr: Trace, k: nat, claim: set<nat>)
    requires Run(c, init, tr) && k <= |tr|
    ensures Followed(c, init, tr, k, claim)
    decreases |tr|
  {
    if k == |tr| {
      assert tr[..k] == tr;
    } else {
      assert Init(tr)[..k] == tr[..k];
      RunInv(c, init, tr);
      hide Next, Ready, Inv, Followed, Tells, CompleteSet;
      BroadcastsFollow(c, init, Init(tr), k, claim);
      StepTells(c, Last(init, Init(tr)), tr[|tr| - 1],
                ClaimAll(claim, |c.metainfo.pieces|, BroadcastsFrom(Init(tr), k)));
      FollowedMore(c, init, tr, k, claim);
    }
  }

  /** What a step broadcasts: the pieces it completes, unless it is fed from the store. */
  ghost predicate Tells(total: nat, before: set<nat>, step: Step, claim: set<nat>) {
    var after := CompleteSet(step.after.pieces);
    && before <= after
    && ClaimAll(claim, total, Broadcasts(step.outs)) == claim + (if step.input.LocalPiece? then {} else after - before)
    && forall i :: 0 <= i < |Broadcasts(step.outs)| ==> Broadcasts(step.outs)[i].Have?
  }

  lemma StepTells(c: Config, s: State, step: Step, claim: set<nat>)
    requires Ready(c, s) && Inv(c, step.after) && Next(c, s, step.input, step.outs, step.after)
    ensures Tells(|c.metainfo.pieces|, CompleteSet(s.pieces), step, claim)
  {
    hide Next, Ready, Inv, Broadcasts, CompleteSet, ClaimAll;
    CompleteSetGrows(c, s, step.input, step.outs, step.after);
    if step.input.LocalPiece? {
      LocalIsSilent(c, s, step.input, step.outs, step.after, claim);
    } else {
      StepAnnounces(c, s, step.input, step.outs, step.after, claim);
    }
  }

  lemma FollowedMore(c: Config, init: State, tr: Trace, k: nat, claim: set<nat>)
    requires k < |tr| && Init(tr)[..k] == tr[..k] && Followed(c, init, Init(tr), k, claim)
    requires Tells(|c.metainfo.pieces|, CompleteSet(Last(init, Init(tr)).pieces), tr[|tr| - 1],
                   ClaimAll(claim, |c.metainfo.pieces|, BroadcastsFrom(Init(tr), k)))
    ensures Followed(c, init, tr, k, claim)
  {
    hide Broadcasts, CompleteSet, ClaimAll;
    ClaimAppend(claim, |c.metainfo.pieces|, BroadcastsFrom(Init(tr), k), Broadcasts(tr[|tr| - 1].outs));
  }

  lemma LocalIsSilent(c: Config, s: State, input: Input, outs: seq<Output>, s': State, claim: set<nat>)
    requires Ready(c, s) && Next(c, s, input, outs, s') && input.LocalPiece?
    ensures Broadcasts(outs) == [] && ClaimAll(claim, |c.metainfo.pieces|, Broadcasts(outs)) == claim
  {
    hide Ready;
  }

  lemma CompleteSetGrows(c: Config, s: State, input: Input, outs: seq<Output>, s': State)
    requires Ready(c, s) && Inv(c, s') && Next(c, s, input, outs, s')
    ensures CompleteSet(s.pieces) <= CompleteSet(s'.pieces)
  {
    hide Next, CompleteSet;
    forall i | i in CompleteSet(s.pieces) ensures i in CompleteSet(s'.pieces) {
      CompleteGrows(c, s, input, outs, s', i);
    }
  }

  /** Step `k` accepted a connection and announced our pieces to it. */
  ghost predicate Greets(tr: Trace, k: nat, fast: bool) {
    && k < |tr| && tr[k].input.PeerConnected? && tr[k].input.extensions.fast == fast
    && |tr[k].outs| >= 2 && tr[k].outs[|tr[k].outs| - 2].SendToPeer?
  }

  ghost function Greeting(tr: Trace, k: nat, fast: bool): M.Message
    requires Greets(tr, k, fast)
  {
    tr[k].outs[|tr[k].outs| - 2].message
  }

  lemma ConnectionGreets(c: Config, s: State, addr: SocketAddr, direction: ConnectionDirection, id: PeerId,
                         ext: PeerExtensions, outs: seq<Output>, s': State)
    requires OnConnected(c, s, addr, direction, id, ext, outs, s') && |outs| >= 2 && outs[|outs| - 2].SendToPeer?
    ensures s'.pieces == s.pieces && Announces(s.pieces, ext.fast, outs[|outs| - 2].message)
  {
    hide Announces, Cancels, Judge, AfterDisconnected, AfterConnected, WithoutWaiter, Orphaned;
    match Judge(c.clientId, s.reg, direction, id)
    case Reject =>
    case Accept =>
    case Replace(_) => assert outs[|outs| - 2..][0] == outs[|outs| - 2];
  }

  lemma StepGreets(c: Config, s: State, input: Input, outs: seq<Output>, s': State, prior: set<nat>)
    requires Ready(c, s) && Next(c, s, input, outs, s') && input.PeerConnected?
    requires |outs| >= 2 && outs[|outs| - 2].SendToPeer?
    ensures var total, greeting := |c.metainfo.pieces|, outs[|outs| - 2].message;
      ClaimAfter(prior, total, greeting) == CompleteSet(s'.pieces) + Stray(prior, total, greeting)
    ensures outs[|outs| - 2].message.NeedsFast() ==> input.extensions.fast
  {
    hide OnConnected, PiecesOk, CompleteSet, Announces, ClaimAfter;
    ConnectionGreets(c, s, input.addr, input.direction, input.id, input.extensions, outs, s');
    AnnouncementIsExact(s.pieces, input.extensions.fast, outs[|outs| - 2].message);
  }

  /** A greeting claims exactly the pieces that are complete when it is sent. */
  lemma GreetingIsExact(c: Config, init: State, tr: Trace, k: nat, fast: bool, prior: set<nat>)
    requires Run(c, init, tr) && Greets(tr, k, fast)
    ensures var total, greeting := |c.metainfo.pieces|, Greeting(tr, k, fast);
      ClaimAfter(prior, total, greeting) == CompleteSet(Last(init, tr[..k + 1]).pieces) + Stray(prior, total, greeting)
    ensures Greeting(tr, k, fast).NeedsFast() ==> fast
  {
    hide Run, Next, Ready, CompleteSet, ClaimAfter;
    StepOf(c, init, tr, k);
    StepGreets(c, Last(init, tr[..k]), tr[k].input, tr[k].outs, tr[k].after, prior);
  }

  /** What a remote registry records for us once it has processed our greeting and then every broadcast. */
  ghost function RecordedAtEnd(c: Config, tr: Trace, k: nat, fast: bool, remote: Registry, us: SocketAddr): set<nat>
    requires Greets(tr, k, fast)
  {
    var msgs := [Greeting(tr, k, fast)] + BroadcastsFrom(tr, k + 1);
    Recorded(ApplyAll(remote, |c.metainfo.pieces|, us, msgs).byPiece, us)
  }

  /**
   * Whatever a remote registry had recorded for us, after the greeting and every broadcast it records our complete
   * pieces, except those that local data has completed since, and numbers of no piece that it already had.
   */
  lemma AnnouncementsAreExact(c: Config, init: State, tr: Trace, k: nat, fast: bool, remote: Registry, us: SocketAddr)
    requires Run(c, init, tr) && Greets(tr, k, fast) && us in remote.peers && remote.peers[us].fast == fast
    ensures RecordedAtEnd(c, tr, k, fast, remote, us)
      == CompleteSet(Last(init, tr).pieces) - RestoredSince(init, tr, k + 1)
         + Stray(Recorded(remote.byPiece, us), |c.metainfo.pieces|, Greeting(tr, k, fast))
    ensures RestoredSince(init, tr, k + 1) <= CompleteSet(Last(init, tr).pieces)
  {
    var total, prior := |c.metainfo.pieces|, Recorded(remote.byPiece, us);
    var greeting, later := Greeting(tr, k, fast), BroadcastsFrom(tr, k + 1);
    var greeted := ClaimAfter(prior, total, greeting);
    hide Run, CompleteSet, ClaimAfter, Stray;
    GreetingIsExact(c, init, tr, k, fast, prior);
    BroadcastsFollow(c, init, tr, k + 1, greeted);
    assert Listens(remote, us, [greeting] + later);
    RecordedIsClaimed(remote, total, us, [greeting] + later);
    ClaimAppend(prior, total, [greeting], later);
    OneClaim(prior, total, greeting);
    StrayIsNoPiece(c, init, tr, prior, greeting);
  }

  lemma OneClaim(prior: set<nat>, total: nat, greeting: M.Message)
    ensures ClaimAll(prior, total, [greeting]) == ClaimAfter(prior, total, greeting)
  {
    assert [greeting][..0] == [];
  }

  lemma StrayIsNoPiece(c: Config, init: State, tr: Trace, prior: set<nat>, greeting: M.Message)
    requires Run(c, init, tr)
    ensures Stray(prior, |c.metainfo.pieces|, greeting) !! CompleteSet(Last(init, tr).pieces)
  {
    RunInv(c, init, tr);
    hide Run, RegistryOk, InFlightOk, ReadsOk;
  }

  /**
   * The remote registry is in sync exactly if local data completed nothing since the greeting and nothing stray was
   * left.
   */
  lemma AnnouncementsStayInSync(c: Config, init: State, tr: Trace, k: nat, fast: bool, remote: Registry, us: SocketAddr)
    requires Run(c, init, tr) && Greets(tr, k, fast) && us in remote.peers && remote.peers[us].fast == fast
    ensures RecordedAtEnd(c, tr, k, fast, remote, us) == CompleteSet(Last(init, tr).pieces)
      <==> RestoredSince(init, tr, k + 1) == {}
           && Stray(Recorded(remote.byPiece, us), |c.metainfo.pieces|, Greeting(tr, k, fast)) == {}
  {
    AnnouncementsAreExact(c, init, tr, k, fast, remote, us);
    StrayIsNoPiece(c, init, tr, Recorded(remote.byPiece, us), Greeting(tr, k, fast));
    hide Run, RecordedAtEnd, CompleteSet, RestoredSince, Stray;
  }

  // ---- Everything that reaches the remote end ----

  /** Every message of a step that goes to one peer: the broadcasts and those sent to it alone, in order. */
  function Heard(outs: seq<Output>, addr: SocketAddr): seq<M.Message> {
    if outs == [] then []
    else
      var o := outs[|outs| - 1];
      Heard(outs[..|outs| - 1], addr) +
      if o.Broadcast? || (o.SendToPeer? && o.addr == addr) then [o.message] else []
  }

  function HeardFrom(tr: Trace, k: nat, addr: SocketAddr): seq<M.Message>
    decreases |tr|
  {
    if k >= |tr| then [] else HeardFrom(Init(tr), k, addr) + Heard(tr[|tr| - 1].outs, addr)
  }

  /** A message that says nothing about pieces and needs no extension. */
  predicate Neutral(msg: M.Message) { !msg.Bitfield? && !msg.Have? && !msg.NeedsFast() }

  ghost predicate OnlyNeutral(outs: seq<Output>, addr: SocketAddr) {
    forall o :: o in outs && o.SendToPeer? && o.addr == addr ==> Neutral(o.message)
  }

  lemma LastBroadcast(outs: seq<Output>)
    requires outs != [] && forall i :: 0 <= i < |Broadcasts(outs)| ==> Broadcasts(outs)[i].Have?
    ensures var init, o := outs[..|outs| - 1], outs[|outs| - 1];
      && (forall i :: 0 <= i < |Broadcasts(init)| ==> Broadcasts(init)[i].Have?)
      && Broadcasts(outs) == Broadcasts(init) + (if o.Broadcast? then [o.message] else [])
      && (o.Broadcast? ==> o.message.Have?)
  {
    var init, o := outs[..|outs| - 1], outs[|outs| - 1];
    assert forall i :: 0 <= i < |Broadcasts(init)| ==> Broadcasts(init)[i] == Broadcasts(outs)[i];
    if o.Broadcast? {
      assert Broadcasts(outs)[|Broadcasts(init)|] == o.message;
    }
  }

  lemma {:induction false} HeardClaims(claim: set<nat>, total: nat, outs: seq<Output>, addr: SocketAddr)
    requires OnlyNeutral(outs, addr) && forall i :: 0 <= i < |Broadcasts(outs)| ==> Broadcasts(outs)[i].Have?
    ensures ClaimAll(claim, total, Heard(outs, addr)) == ClaimAll(claim, total, Broadcasts(outs))
    ensures forall i :: 0 <= i < |Heard(outs, addr)| ==> !Heard(outs, addr)[i].NeedsFast()
  {
    if outs != [] {
      hide ClaimAll, Broadcasts;
      var init, o := outs[..|outs| - 1], outs[|outs| - 1];
      LastBroadcast(outs);
      assert o in outs;
      HeardClaims(claim, total, init, addr);
      HeardOne(claim, total, Heard(init, addr), Broadcasts(init), o, addr);
    }
  }

  lemma HeardOne(claim: set<nat>, total: nat, heard: seq<M.Message>, haves: seq<M.Message>, o: Output, addr: SocketAddr)
    requires ClaimAll(claim, total, heard) == ClaimAll(claim, total, haves)
    requires o.SendToPeer? && o.addr == addr ==> Neutral(o.message)
    ensures var sent := if o.Broadcast? || (o.SendToPeer? && o.addr == addr) then [o.message] else [];
      var told := if o.Broadcast? then [o.message] else [];
      ClaimAll(claim, total, heard + sent) == ClaimAll(claim, total, haves + told)
  {
    hide ClaimAll;
    assert heard + [] == heard && haves + [] == haves;
    if o.Broadcast? {
      ClaimMore(claim, total, heard, o.message);
      ClaimMore(claim, total, haves, o.message);
    } else if o.SendToPeer? && o.addr == addr {
      ClaimMore(claim, total, heard, o.message);
    }
  }

  lemma ClaimMore(claim: set<nat>, total: nat, msgs: seq<M.Message>, msg: M.Message)
    ensures ClaimAll(claim, total, msgs + [msg]) == ClaimAfter(ClaimAll(claim, total, msgs), total, msg)
  {
    assert (msgs + [msg])[..|msgs|] == msgs;
  }

  // ---- What is sent to one peer alone ----

  lemma {:induction false} PlanIsNeutral(rs: seq<BlockRequest>, addr: SocketAddr)
    ensures OnlyNeutral(RequestOutputs(rs), addr)
  {
    if rs != [] {
      PlanIsNeutral(rs[..|rs| - 1], addr);
    }
  }

  lemma PlannedNeutral(c: Config, s: State, outs: seq<Output>, s': State, addr: SocketAddr)
    requires Planned(c, s, outs, s')
    ensures OnlyNeutral(outs, addr)
  {
    if s.status.Downloads() {
      var rs :| PlansWith(c, s, rs, outs, s');
      PlanIsNeutral(rs, addr);
    }
  }

  lemma ExtensionNeutral(c: Config, s: State, from: SocketAddr, extId: byte, payload: bytes, outs: seq<Output>,
                         addr: SocketAddr)
    requires ExtensionOutputs(c, s, from, extId, payload, outs)
    ensures OnlyNeutral(outs, addr)
  {
    hide X.DecodePex, X.DecodeUtMetadata, X.EncodeUtMetadata;
    if extId == M.UT_PEX_EXT_ID && X.DecodePex(payload).Ok? {
      var order :| Listing(order, X.DecodePex(payload).value) && outs == Discovered(s, order);
      DiscoveryOnlyConnects(s.reg, order);
    }
  }

  lemma PieceNeutral(c: Config, s: State, from: SocketAddr, range: BlockRange, data: bytes, outs: seq<Output>,
                     addr: SocketAddr)
    requires Ready(c, s) && PieceOutputs(c, s, from, range, data, outs)
    ensures OnlyNeutral(outs, addr)
  {
    hide Receipt, CompletionOutputs;
    var (r, pieces) := Receipt(c, s, from, range, data);
    if r.Ok? && r.value.Some? {
      CompletionNeutral(r.value.value, AllComplete(pieces), s.reg.seeders, outs, addr);
    }
  }

  lemma CompletionNeutral(done: CompletedPiece, last: bool, seeders: set<SocketAddr>, outs: seq<Output>,
                          addr: SocketAddr)
    requires CompletionOutputs(done, last, seeders, outs)
    ensures OnlyNeutral(outs, addr)
  {
    if last {
      DisconnectsOnlyDisconnect(seeders, outs[3..]);
      assert outs == [outs[0], outs[1], outs[2]] + outs[3..];
    } else {
      assert outs == [outs[0], outs[1]];
    }
  }

  lemma HandlerNeutral(c: Config, s: State, from: SocketAddr, msg: M.Message, outs: seq<Output>, addr: SocketAddr)
    requires Ready(c, s) && MessageOutputs(c, s, from, msg, outs)
    ensures OnlyNeutral(outs, addr)
  {
    hide PieceOutputs, ExtensionOutputs, Ready, FateOf;
    match msg
    case Piece(range, data) => PieceNeutral(c, s, from, range, data, outs, addr);
    case Extension(extId, payload) => ExtensionNeutral(c, s, from, extId, payload, outs, addr);
    case _ =>
  }

  lemma MessageNeutral(c: Config, s: State, from: SocketAddr, msg: M.Message, outs: seq<Output>, s': State,
                       addr: SocketAddr)
    requires Ready(c, s) && OnMessage(c, s, from, msg, outs, s')
    ensures OnlyNeutral(outs, addr)
  {
    hide Handled, Ready;
    var applied := ApplyMessage(s.reg, |c.metainfo.pieces|, from, msg);
    if applied.Ok? {
      var s1 := s.(reg := applied.value);
      SameReady(c, s, s1);
      var n: nat :| Handled(c, s1, from, msg, n, outs, s');
      HandledNeutral(c, s1, from, msg, n, outs, s', addr);
    }
  }

  lemma HandledNeutral(c: Config, s: State, from: SocketAddr, msg: M.Message, n: nat, outs: seq<Output>, s': State,
                       addr: SocketAddr)
    requires Ready(c, s) && Handled(c, s, from, msg, n, outs, s')
    ensures OnlyNeutral(outs, addr)
  {
    hide MessageOutputs, AfterMessage, Planned, Ready;
    HandlerNeutral(c, s, from, msg, outs[..n], addr);
    assert outs == outs[..n] + outs[n..];
    if msg.AffectsScheduling() {
      PlannedNeutral(c, AfterMessage(c, s, from, msg), outs[n..], s', addr);
    } else {
      assert outs[n..] == [];
    }
  }

  /** The step accepts a connection at the address, and greets it. */
  ghost predicate Welcomes(step: Step, addr: SocketAddr) {
    step.input.PeerConnected? && step.input.addr == addr && |step.outs| >= 2
  }

  lemma ConnectionNeutral(c: Config, s: State, at: SocketAddr, direction: ConnectionDirection, id: PeerId,
                          ext: PeerExtensions, outs: seq<Output>, s': State, addr: SocketAddr)
    requires OnConnected(c, s, at, direction, id, ext, outs, s') && (at == addr ==> |outs| < 2)
    ensures OnlyNeutral(outs, addr)
  {
    hide Judge, Cancels, Announces, AfterGone, AfterAccept;
    match Judge(c.clientId, s.reg, direction, id)
    case Reject =>
    case Accept => assert outs == [outs[0], outs[1]];
    case Replace(prev) =>
      CancelsOnlyCancel(s.pending, Orphaned(s.pending, prev), outs[..|outs| - 3]);
      var greeting := outs[|outs| - 2..];
      assert greeting == [greeting[0], greeting[1]];
      assert outs == outs[..|outs| - 3] + [outs[|outs| - 3]] + greeting;
  }

  lemma CancelsNeutral(rs: Reads, which: set<BlockRange>, outs: seq<Output>, addr: SocketAddr)
    requires Cancels(rs, which, outs)
    ensures OnlyNeutral(outs, addr)
  {
    CancelsOnlyCancel(rs, which, outs);
  }

  lemma ReadNeutral(s: State, id: nat, range: BlockRange, data: bytes, outs: seq<Output>, s': State, addr: SocketAddr)
    requires OnReadCompleted(s, id, range, data, outs, s')
    ensures OnlyNeutral(outs, addr)
  {
    hide Sends;
    if outs != [] {
      SendsOnlySend(s.pending[range].peers * s.reg.peers.Keys, M.Piece(range, data), outs);
    }
  }

  lemma DiscoveryNeutral(s: State, addrs: seq<SocketAddr>, addr: SocketAddr)
    ensures OnlyNeutral(Discovered(s, addrs), addr)
  {
    DiscoveryOnlyConnects(s.reg, addrs);
  }

  lemma PexNeutral(s: State, outs: seq<Output>, addr: SocketAddr)
    requires OnPexTick(s, outs)
    ensures OnlyNeutral(outs, addr)
  {
    PexOnlyExtends(s, outs);
  }

  lemma SilentNeutral(addr: SocketAddr)
    ensures OnlyNeutral([], addr)
  {
  }

  lemma OtherNeutral(c: Config, s: State, input: Input, outs: seq<Output>, s': State, addr: SocketAddr)
    requires Ready(c, s) && Next(c, s, input, outs, s')
    requires !(input.PeerConnected? || input.MessageReceived? || input == OnTick(BlockTick))
    ensures OnlyNeutral(outs, addr)
  {
    hide Ready, OnConnected, OnMessage, Planned, OnPexTick, OnReadCompleted, Cancels, AfterLocal, AfterGone, Discovered,
      OnlyNeutral;
    SilentNeutral(addr);
    match input
    case PeersDiscovered(addrs) => DiscoveryNeutral(s, addrs, addr);
    case PeerDisconnected(at) => CancelsNeutral(s.pending, Orphaned(s.pending, at), outs, addr);
    case LocalPiece(_, _) =>
    case UploadReadCompleted(id, range, data) => ReadNeutral(s, id, range, data, outs, s', addr);
    case SetStatus(status) =>
      if !status.Uploads() {
        CancelsNeutral(s.pending, s.pending.Keys, outs, addr);
      }
    case OnTick(PexTick) => PexNeutral(s, outs, addr);
  }

  /** Apart from the greeting, whatever a step sends to one peer alone says nothing about pieces. */
  lemma StepNeutral(c: Config, s: State, step: Step, addr: SocketAddr)
    requires Ready(c, s) && Next(c, s, step.input, step.outs, step.after) && !Welcomes(step, addr)
    ensures OnlyNeutral(step.outs, addr)
  {
    hide Ready, OnConnected, OnMessage, Planned, OnlyNeutral;
    match step.input
    case PeerConnected(id, direction, at, ext) =>
      ConnectionNeutral(c, s, at, direction, id, ext, step.outs, step.after, addr);
    case MessageReceived(from, msg) => MessageNeutral(c, s, from, msg, step.outs, step.after, addr);
    case OnTick(BlockTick) => PlannedNeutral(c, s, step.outs, step.after, addr);
    case _ => OtherNeutral(c, s, step.input, step.outs, step.after, addr);
  }

  // ---- The remote end hears everything ----

  lemma {:induction false} HeardAppend(xs: seq<Output>, ys: seq<Output>, addr: SocketAddr)
    ensures Heard(xs + ys, addr) == Heard(xs, addr) + Heard(ys, addr)
  {
    if ys == [] {
      assert xs + ys == xs;
    } else {
      assert (xs + ys)[..|xs + ys| - 1] == xs + ys[..|ys| - 1];
      HeardAppend(xs, ys[..|ys| - 1], addr);
    }
  }

  lemma {:induction false} NothingHeard(outs: seq<Output>, addr: SocketAddr)
    requires forall o :: o in outs ==> !o.SendToPeer? && !o.Broadcast?
    ensures Heard(outs, addr) == []
  {
    if outs != [] {
      NothingHeard(outs[..|outs| - 1], addr);
    }
  }

  lemma TwoHeard(outs: seq<Output>, addr: SocketAddr)
    requires |outs| == 2 && outs[0].SendToPeer? && outs[0].addr == addr && outs[1].SendToPeer? && outs[1].addr == addr
    ensures Heard(outs, addr) == [outs[0].message, outs[1].message]
  {
    assert outs[..1][..0] == [] && outs[..1][0] == outs[0];
    assert Heard(outs[..1], addr) == [outs[0].message];
  }

  /** The peer that is greeted hears the greeting and our interest in that step, and nothing else. */
  lemma WelcomeHeard(c: Config, s: State, step: Step, addr: SocketAddr)
    requires Ready(c, s) && Next(c, s, step.input, step.outs, step.after) && Welcomes(step, addr)
    ensures step.outs[|step.outs| - 2].SendToPeer?
    ensures Heard(step.outs, addr) == [step.outs[|step.outs| - 2].message, M.Interested]
  {
    var outs := step.outs;
    hide Ready, Judge, Cancels, Announces, AfterGone, AfterAccept, Heard;
    match Judge(c.clientId, s.reg, step.input.direction, step.input.id)
    case Reject =>
    case Accept => TwoHeard(outs, addr);
    case Replace(prev) =>
      var before, greeting := outs[..|outs| - 2], outs[|outs| - 2..];
      CancelsOnlyCancel(s.pending, Orphaned(s.pending, prev), outs[..|outs| - 3]);
      assert before == outs[..|outs| - 3] + [outs[|outs| - 3]];
      NothingHeard(before, addr);
      TwoHeard(greeting, addr);
      HeardAppend(before, greeting, addr);
      assert outs == before + greeting && greeting[0] == outs[|outs| - 2];
  }

  /** No later step greets the address again. */
  ghost predicate NotGreetedSince(tr: Trace, k: nat, addr: SocketAddr) {
    forall j :: k <= j < |tr| ==> !Welcomes(tr[j], addr)
  }

  lemma {:induction false} HeardFollows(c: Config, init: State, tr: Trace, k: nat, addr: SocketAddr, claim: set<nat>)
    requires Run(c, init, tr) && k <= |tr| && NotGreetedSince(tr, k, addr)
    ensures ClaimAll(claim, |c.metainfo.pieces|, HeardFrom(tr, k, addr))
      == ClaimAll(claim, |c.metainfo.pieces|, BroadcastsFrom(tr, k))
    ensures forall i :: 0 <= i < |HeardFrom(tr, k, addr)| ==> !HeardFrom(tr, k, addr)[i].NeedsFast()
    decreases |tr|
  {
    hide Next, Ready, Inv, Heard, Broadcasts, ClaimAll, Welcomes, CompleteSet;
    if k < |tr| {
      var step, before, total := tr[|tr| - 1], Last(init, Init(tr)), |c.metainfo.pieces|;
      assert forall j :: k <= j < |tr| - 1 ==> Init(tr)[j] == tr[j];
      HeardFollows(c, init, Init(tr), k, addr, claim);
      RunInv(c, init, tr);
      var sofar := ClaimAll(claim, total, BroadcastsFrom(Init(tr), k));
      StepTells(c, before, step, sofar);
      StepNeutral(c, before, step, addr);
      HeardClaims(sofar, total, step.outs, addr);
      ClaimAppend(claim, total, HeardFrom(Init(tr), k, addr), Heard(step.outs, addr));
      ClaimAppend(claim, total, BroadcastsFrom(Init(tr), k), Broadcasts(step.outs));
    }
  }

  /**
   * The remote end processes every message we send it from the greeting on, whatever they are. As long as it is not
   * greeted again, its registry then records the same as from the greeting and the broadcasts alone: what
   * `AnnouncementsAreExact` says.
   */
  lemma EverythingHeardIsExact(c: Config, init: State, tr: Trace, k: nat, fast: bool, remote: Registry, us: SocketAddr)
    requires Run(c, init, tr) && Greets(tr, k, fast) && us in remote.peers && remote.peers[us].fast == fast
    requires NotGreetedSince(tr, k + 1, tr[k].input.addr)
    ensures var heard := Heard(tr[k].outs, tr[k].input.addr) + HeardFrom(tr, k + 1, tr[k].input.addr);
      Recorded(ApplyAll(remote, |c.metainfo.pieces|, us, heard).byPiece, us)
          == RecordedAtEnd(c, tr, k, fast, remote, us)
  {
    hide *;
    var total, prior := |c.metainfo.pieces|, Recorded(remote.byPiece, us);
    HeardByRemote(c, init, tr, k, fast, prior);
    var addr := tr[k].input.addr;
    var greeting, later, haves := Greeting(tr, k, fast), HeardFrom(tr, k + 1, addr), BroadcastsFrom(tr, k + 1);
    GreetingThen(prior, total, greeting, later, haves);
    ListensToBoth(remote, us, greeting, fast, later, haves);
    RecordedIsClaimed(remote, total, us, [greeting, M.Interested] + later);
    RecordedIsClaimed(remote, total, us, [greeting] + haves);
    EndIs(c, tr, k, fast, remote, us);
  }

  lemma EndIs(c: Config, tr: Trace, k: nat, fast: bool, remote: Registry, us: SocketAddr)
    requires Greets(tr, k, fast)
    ensures RecordedAtEnd(c, tr, k, fast, remote, us)
         == Recorded(ApplyAll(remote, |c.metainfo.pieces|, us,
                              [Greeting(tr, k, fast)] + BroadcastsFrom(tr, k + 1)).byPiece, us)
  {
    hide Recorded, ApplyAll, Greeting, BroadcastsFrom;
  }

  /** The greeting comes first, and what follows it claims what the broadcasts claim. */
  lemma HeardByRemote(c: Config, init: State, tr: Trace, k: nat, fast: bool, prior: set<nat>)
    requires Run(c, init, tr) && Greets(tr, k, fast) && NotGreetedSince(tr, k + 1, tr[k].input.addr)
    ensures k < |tr| && tr[k].input.PeerConnected?
    ensures var addr, greeting := tr[k].input.addr, Greeting(tr, k, fast);
      var later, haves := HeardFrom(tr, k + 1, addr), BroadcastsFrom(tr, k + 1);
      var greeted, total := ClaimAfter(prior, |c.metainfo.pieces|, greeting), |c.metainfo.pieces|;
      && Heard(tr[k].outs, addr) == [greeting, M.Interested] && (greeting.NeedsFast() ==> fast)
      && ClaimAll(greeted, total, later) == ClaimAll(greeted, total, haves)
      && (forall i :: 0 <= i < |later| ==> !later[i].NeedsFast())
      && forall i :: 0 <= i < |haves| ==> haves[i].Have?
  {
    hide Run, CompleteSet, ClaimAfter, Stray, Heard, Next, Ready, NotGreetedSince;
    var addr, greeted := tr[k].input.addr, ClaimAfter(prior, |c.metainfo.pieces|, Greeting(tr, k, fast));
    StepOf(c, init, tr, k);
    WelcomeHeard(c, Last(init, tr[..k]), tr[k], addr);
    GreetingIsExact(c, init, tr, k, fast, prior);
    BroadcastsFollow(c, init, tr, k + 1, greeted);
    HeardFollows(c, init, tr, k + 1, addr, greeted);
  }

  lemma GreetingThen(prior: set<nat>, total: nat, greeting: M.Message, later: seq<M.Message>, haves: seq<M.Message>)
    requires ClaimAll(ClaimAfter(prior, total, greeting), total, later)
      == ClaimAll(ClaimAfter(prior, total, greeting), total, haves)
    ensures ClaimAll(prior, total, [greeting, M.Interested] + later) == ClaimAll(prior, total, [greeting] + haves)
  {
    hide ClaimAll;
    assert [greeting] + [M.Interested] == [greeting, M.Interested];
    OneClaim(prior, total, greeting);
    ClaimMore(prior, total, [greeting], M.Interested);
    ClaimAppend(prior, total, [greeting, M.Interested], later);
    ClaimAppend(prior, total, [greeting], haves);
  }

  lemma ListensToBoth(r: Registry, us: SocketAddr, greeting: M.Message, fast: bool, later: seq<M.Message>,
                      haves: seq<M.Message>)
    requires us in r.peers && r.peers[us].fast == fast && (greeting.NeedsFast() ==> fast)
    requires forall i :: 0 <= i < |later| ==> !later[i].NeedsFast()
    requires forall i :: 0 <= i < |haves| ==> haves[i].Have?
    ensures Listens(r, us, [greeting, M.Interested] + later) && Listens(r, us, [greeting] + haves)
  {
  }
}
