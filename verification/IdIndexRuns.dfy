/** The index of identities over runs: when it points to nobody, or to somebody else (swarm/peer_registry.rs). */
module IdIndexRuns {
  import opened Listings
  import opened Peers
  import opened PieceManagers
  import opened Registries
  import opened SwarmEvents
  import opened SwarmSpec
  import opened SwarmInvariants
  import opened Runs
  import RegistryRuns
  import SimultaneousOpen
  import M = Messages

  /** Every entry names a registered address whose peer has that identity. */
  ghost predicate Live(r: Registry) {
    forall id :: id in r.byId ==> r.byId[id].0 in r.peers && r.peers[r.byId[id].0].id == id
  }

  /** A connection is accepted at a registered address whose peer has another identity. */
  ghost predicate TakesId(c: Config, s: State, input: Input) {
    && input.PeerConnected? && input.addr in s.reg.peers && s.reg.peers[input.addr].id != input.id
    && match Judge(c.clientId, s.reg, input.direction, input.id)
       case Reject => false
       case Accept => true
       case Replace(prev) => prev != input.addr
  }

  lemma GoneLive(r: Registry, addr: SocketAddr)
    requires Indexed(r) && Live(r)
    ensures Live(AfterDisconnected(r, addr))
  {
  }

  lemma ConnectedLive(r: Registry, addr: SocketAddr, id: PeerId, direction: ConnectionDirection, ext: PeerExtensions)
    requires Indexed(r) && Live(r)
    ensures Live(AfterConnected(r, addr, id, direction, ext)) <==> !(addr in r.peers && r.peers[addr].id != id)
  {
    var r' := AfterConnected(r, addr, id, direction, ext);
    if addr in r.peers && r.peers[addr].id != id {
      assert r.peers[addr].id in r'.byId;
    }
  }

  lemma ConnectionLive(c: Config, s: State, addr: SocketAddr, direction: ConnectionDirection, id: PeerId,
                       ext: PeerExtensions, outs: seq<Output>, s': State)
    requires Inv(c, s) && OnConnected(c, s, addr, direction, id, ext, outs, s') && Live(s.reg)
    ensures Live(s'.reg) <==> !TakesId(c, s, PeerConnected(id, direction, addr, ext))
  {
    RegistryRuns.InvRegistry(c, s);
    hide Inv, Live, Cancels, AcceptOutputs, AfterConnected;
    match Judge(c.clientId, s.reg, direction, id)
    case Reject =>
    case Accept => ConnectedLive(s.reg, addr, id, direction, ext);
    case Replace(prev) =>
      GoneLive(s.reg, prev);
      GoneKeeps(c, s, prev);
      RegistryRuns.InvRegistry(c, AfterGone(s, prev));
      ConnectedLive(AfterGone(s, prev).reg, addr, id, direction, ext);
  }

  lemma MessageLive(r: Registry, total: nat, addr: SocketAddr, msg: M.Message)
    requires Live(r)
    ensures Live(Registries.Step(r, total, MessageFrom(addr, msg)))
  {
    if addr in r.peers {
      assert ApplyToPeer(r.peers[addr], msg).id == r.peers[addr].id;
    }
  }

  /** From a live index a step leads to a live one exactly if it takes over no other identity's address. */
  lemma StepLive(c: Config, s: State, input: Input, outs: seq<Output>, s': State)
    requires Inv(c, s) && Next(c, s, input, outs, s') && Live(s.reg)
    ensures Live(s'.reg) <==> !TakesId(c, s, input)
  {
    if input.PeerConnected? {
      hide Inv, OnConnected, Live, TakesId;
      ConnectionLive(c, s, input.addr, input.direction, input.id, input.extensions, outs, s');
    } else {
      RegistryRuns.InvRegistry(c, s);
      hide Inv, Next, Live;
      OtherStepLive(c, s, input, outs, s');
    }
  }

  lemma OtherStepLive(c: Config, s: State, input: Input, outs: seq<Output>, s': State)
    requires Ready(c, s) && Next(c, s, input, outs, s') && !input.PeerConnected? && Indexed(s.reg) && Live(s.reg)
    ensures Live(s'.reg)
  {
    var total := |c.metainfo.pieces|;
    RegistryRuns.StepEvents(c, s, input, outs, s');
    hide Ready, Next, Live, AfterDisconnected, ApplyMessage;
    if input.PeerDisconnected? {
      RegistryRuns.OneEvent(s.reg, total, Disconnected(input.addr));
      GoneLive(s.reg, input.addr);
    } else if input.MessageReceived? {
      RegistryRuns.OneEvent(s.reg, total, MessageFrom(input.addr, input.message));
      MessageLive(s.reg, total, input.addr, input.message);
    }
  }

  // ---- Runs ----

  ghost predicate AlwaysLive(init: State, tr: Trace) {
    (tr != [] ==> AlwaysLive(init, Init(tr))) && Live(Last(init, tr).reg)
  }

  ghost predicate NeverTakesId(c: Config, init: State, tr: Trace) {
    tr != [] ==> NeverTakesId(c, init, Init(tr)) && !TakesId(c, Last(init, Init(tr)), tr[|tr| - 1].input)
  }

  /**
   * Over every run the index points at all times to the peers it names exactly if no connection ever took an address.
   */
  lemma {:induction false} AlwaysLiveIff(c: Config, init: State, tr: Trace)
    requires Run(c, init, tr)
    ensures AlwaysLive(init, tr) <==> NeverTakesId(c, init, tr)
  {
    hide Next, Ready, Inv, TakesId;
    if tr == [] {
      assert IsInit(c, init);
    } else {
      AlwaysLiveIff(c, init, Init(tr));
      RunInv(c, init, Init(tr));
      hide Live;
      if AlwaysLive(init, Init(tr)) {
        StepLive(c, Last(init, Init(tr)), tr[|tr| - 1].input, tr[|tr| - 1].outs, tr[|tr| - 1].after);
      }
    }
  }

  // ---- What simultaneous open starts from ----

  /** Neither the other client nor anyone at the address of the preferred connection is registered. */
  ghost predicate Absent(r: Registry, k: SimultaneousOpen.Link) {
    k.winner !in r.peers && forall a :: a in r.peers ==> r.peers[a].id != k.them
  }

  lemma LiveIsUntangled(c: Config, r: Registry, k: SimultaneousOpen.Link)
    requires Live(r) && Absent(r, k)
    ensures SimultaneousOpen.Untangled(c, r, k)
  {
  }

  /** Two runs in which no connection took an address, and that do not know of each other yet, may start. */
  lemma RunsMayStart(x: SimultaneousOpen.Clients, initA: State, trA: Trace, initB: State, trB: Trace)
    requires Run(x.a, initA, trA) && NeverTakesId(x.a, initA, trA) && Absent(Last(initA, trA).reg, x.ViewA())
    requires Run(x.b, initB, trB) && NeverTakesId(x.b, initB, trB) && Absent(Last(initB, trB).reg, x.ViewB())
    requires x.byA.atA != x.byB.atA && x.byA.atB != x.byB.atB
    ensures SimultaneousOpen.Start(x,
                                   SimultaneousOpen.TwoSwarms(Last(initA, trA), Last(initB, trB), false, false, false))
  {
    OneMayStart(x.a, initA, trA, x.ViewA());
    OneMayStart(x.b, initB, trB, x.ViewB());
    hide Run, Inv, NeverTakesId, Absent, SimultaneousOpen.Untangled;
  }

  lemma OneMayStart(c: Config, init: State, tr: Trace, k: SimultaneousOpen.Link)
    requires Run(c, init, tr) && NeverTakesId(c, init, tr) && Absent(Last(init, tr).reg, k)
    ensures Inv(c, Last(init, tr)) && SimultaneousOpen.Untangled(c, Last(init, tr).reg, k)
  {
    hide Run, Inv, Live, Absent, SimultaneousOpen.Untangled;
    RunInv(c, init, tr);
    AlwaysLiveIff(c, init, tr);
    LiveIsUntangled(c, Last(init, tr).reg, k);
  }

  // ---- Two runs that go wrong ----

  const FAST := PeerExtensions(false, true)

  function Welcome(addr: SocketAddr): seq<Output> {
    [SendToPeer(addr, M.HaveNone), SendToPeer(addr, M.Interested)]
  }

  function Greeted(addr: SocketAddr, direction: ConnectionDirection, id: PeerId, s: State): Step {
    Step(PeerConnected(id, direction, addr, FAST), Welcome(addr), AfterAccept(s, addr, direction, id, FAST))
  }

  /** A swarm that has nothing and has promised nothing. */
  ghost predicate Idle(c: Config, s: State) {
    Ready(c, s) && NoneComplete(s.pieces) && !AllComplete(s.pieces) && s.pending == map[]
  }

  lemma InitIdle(c: Config, init: State)
    requires IsInit(c, init)
    ensures Idle(c, init)
  {
    InitInv(c, init);
    hide Inv;
    assert !init.pieces[0].Complete?;
  }

  /** A connection under an identity the index does not have is accepted. */
  lemma Accepts(c: Config, init: State, tr: Trace, addr: SocketAddr, direction: ConnectionDirection, id: PeerId)
    requires Run(c, init, tr) && Idle(c, Last(init, tr)) && id !in Last(init, tr).reg.byId
    ensures var step := Greeted(addr, direction, id, Last(init, tr));
      Run(c, init, tr + [step]) && Last(init, tr + [step]) == step.after && Idle(c, step.after)
  {
    var s := Last(init, tr);
    var step := Greeted(addr, direction, id, s);
    assert Init(tr + [step]) == tr;
    assert Next(c, s, step.input, step.outs, step.after);
    hide Next, PiecesOk, NoneComplete, AllComplete;
  }

  lemma Leaves(c: Config, init: State, tr: Trace, addr: SocketAddr)
    requires Run(c, init, tr) && Idle(c, Last(init, tr))
    ensures var step := Step(PeerDisconnected(addr), [], AfterGone(Last(init, tr), addr));
      Run(c, init, tr + [step]) && Last(init, tr + [step]) == step.after
  {
    var s := Last(init, tr);
    var step := Step(PeerDisconnected(addr), [], AfterGone(s, addr));
    assert Init(tr + [step]) == tr;
    assert Cancels(s.pending, Orphaned(s.pending, addr), []) by {
      assert Listing<BlockRange>([], Orphaned(s.pending, addr)) && CancelsOf(s.pending, [], []);
    }
    hide Cancels, Orphaned, PiecesOk;
    assert Next(c, s, step.input, step.outs, step.after);
  }

  /** The first client connects from `a`, and then the second one from the same address. */
  lemma BothConnect(c: Config, init: State, a: SocketAddr, d1: ConnectionDirection, d2: ConnectionDirection,
                    id1: PeerId, id2: PeerId) returns (tr: Trace)
    requires IsInit(c, init) && id1 != id2
    ensures Run(c, init, tr) && Idle(c, Last(init, tr))
    ensures var r := Last(init, tr).reg;
      r.peers == map[a := NewPeer(id2, FAST)] && r.byId == map[id1 := (a, d1), id2 := (a, d2)]
  {
    InitIdle(c, init);
    hide Next, Idle, IsInit;
    Accepts(c, init, [], a, d1, id1);
    var tr1 := [] + [Greeted(a, d1, id1, init)];
    Accepts(c, init, tr1, a, d2, id2);
    tr := tr1 + [Greeted(a, d2, id2, Last(init, tr1))];
  }

  /** Nobody has the identity, and yet the index holds it with the direction that every duplicate loses against. */
  ghost predicate Barred(c: Config, r: Registry, id: PeerId) {
    && id in r.byId && r.byId[id].1 == PreferredDirection(c.clientId, id)
    && forall a :: a in r.peers ==> r.peers[a].id != id
  }

  lemma BarredIsRejected(c: Config, r: Registry, id: PeerId, direction: ConnectionDirection)
    requires Barred(c, r, id)
    ensures Judge(c.clientId, r, direction, id) == Reject
  {
  }

  lemma EventBarred(c: Config, r: Registry, total: nat, e: Event, id: PeerId)
    requires Barred(c, r, id) && (e.Connected? ==> e.id != id)
    ensures Barred(c, Registries.Step(r, total, e), id)
  {
    if e.MessageFrom? && e.addr in r.peers {
      assert ApplyToPeer(r.peers[e.addr], e.msg).id == r.peers[e.addr].id;
    }
  }

  lemma {:induction false} EventsBarred(c: Config, r: Registry, total: nat, es: seq<Event>, id: PeerId)
    requires Barred(c, r, id) && forall e :: e in es ==> e.Connected? ==> e.id != id
    ensures Barred(c, RegistryRuns.Apply(r, total, es), id)
  {
    hide Barred;
    if es != [] {
      EventsBarred(c, r, total, es[..|es| - 1], id);
      assert es[|es| - 1] in es;
      EventBarred(c, RegistryRuns.Apply(r, total, es[..|es| - 1]), total, es[|es| - 1], id);
    }
  }

  lemma StepBarred(c: Config, s: State, input: Input, outs: seq<Output>, s': State, id: PeerId)
    requires Ready(c, s) && Next(c, s, input, outs, s') && Barred(c, s.reg, id)
    ensures Barred(c, s'.reg, id)
  {
    RegistryRuns.StepEvents(c, s, input, outs, s');
    if input.PeerConnected? && input.id == id {
      BarredIsRejected(c, s.reg, id, input.direction);
    }
    hide Ready, Next, Barred, Judge;
    EventsBarred(c, s.reg, |c.metainfo.pieces|, RegistryRuns.EventsOf(c, s, input), id);
  }

  /** Once barred, an identity stays barred whatever happens. */
  lemma {:induction false} BarredForGood(c: Config, init: State, tr: Trace, k: nat, id: PeerId)
    requires Run(c, init, tr) && k <= |tr| && Barred(c, Last(init, tr[..k]).reg, id)
    ensures Barred(c, Last(init, tr).reg, id)
    decreases |tr|
  {
    hide Next, Ready, Barred;
    if k == |tr| {
      assert tr[..k] == tr;
    } else {
      assert Init(tr)[..k] == tr[..k];
      BarredForGood(c, init, Init(tr), k, id);
      StepBarred(c, Last(init, Init(tr)), tr[|tr| - 1].input, tr[|tr| - 1].outs, tr[|tr| - 1].after, id);
    }
  }

  /** After the run the preferred connection of `id`, wherever it comes from, closes the one of `other` at `a`. */
  ghost predicate ClosesOther(c: Config, init: State, tr: Trace, a: SocketAddr, id: PeerId, other: PeerId) {
    var s := Last(init, tr);
    && Run(c, init, tr) && Ready(c, s) && a in s.reg.peers && s.reg.peers[a].id == other
    && forall addr, ext ::
      SimultaneousOpen.Closes(c, s, PeerConnected(id, PreferredDirection(c.clientId, id), addr, ext), a)
  }

  /** Nobody at all is registered, and yet the identity is barred. */
  ghost predicate LocksOut(c: Config, init: State, tr: Trace, id: PeerId) {
    Run(c, init, tr) && Last(init, tr).reg.peers == map[] && Barred(c, Last(init, tr).reg, id)
  }

  /**
   * A client is locked out for good: after another client took its address and left, nobody is registered, and
   * still every connection of the first client is rejected, from any address and in either direction, from then on.
   */
  lemma LockedOut(c: Config, init: State, a: SocketAddr, id1: PeerId, id2: PeerId)
    requires IsInit(c, init) && id1 != id2
    ensures exists tr :: LocksOut(c, init, tr, id1)
    ensures forall tr, more, direction :: LocksOut(c, init, tr, id1) && Run(c, init, tr + more) ==>
      Judge(c.clientId, Last(init, tr + more).reg, direction, id1) == Reject
  {
    LocksOutOnce(c, init, a, id1, id2);
    forall tr, more, direction | LocksOut(c, init, tr, id1) && Run(c, init, tr + more)
      ensures Judge(c.clientId, Last(init, tr + more).reg, direction, id1) == Reject
    {
      assert (tr + more)[..|tr|] == tr;
      hide Barred, Judge;
      BarredForGood(c, init, tr + more, |tr|, id1);
      BarredIsRejected(c, Last(init, tr + more).reg, id1, direction);
    }
  }

  lemma LocksOutOnce(c: Config, init: State, a: SocketAddr, id1: PeerId, id2: PeerId)
    requires IsInit(c, init) && id1 != id2
    ensures exists tr :: LocksOut(c, init, tr, id1)
  {
    var tr := BothConnect(c, init, a, PreferredDirection(c.clientId, id1), Inbound, id1, id2);
    var gone := AfterGone(Last(init, tr), a);
    Leaves(c, init, tr, a);
    hide Run, Idle, IsInit;
    assert gone.reg.byId[id1] == (a, PreferredDirection(c.clientId, id1));
    assert gone.reg.peers == map[];
    assert Last(init, tr + [Step(PeerDisconnected(a), [], gone)]) == gone;
    assert LocksOut(c, init, tr + [Step(PeerDisconnected(a), [], gone)], id1);
  }

  /**
   * A client is closed in place of another: after it took the address of a client that is known by a connection of
   * the losing direction, the preferred connection of that client, wherever it comes from, closes it.
   */
  lemma WrongPeerIsClosed(c: Config, init: State, a: SocketAddr, id1: PeerId, id2: PeerId)
    requires IsInit(c, init) && id1 != id2
    ensures exists tr :: ClosesOther(c, init, tr, a, id1, id2)
  {
    var other := SimultaneousOpen.Opposite(PreferredDirection(c.clientId, id1));
    var tr := BothConnect(c, init, a, other, Inbound, id1, id2);
    hide Run, IsInit, PiecesOk;
    assert Judge(c.clientId, Last(init, tr).reg, PreferredDirection(c.clientId, id1), id1) == Replace(a);
    assert ClosesOther(c, init, tr, a, id1, id2);
  }
}
