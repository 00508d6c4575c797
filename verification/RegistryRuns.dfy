/** The swarm's registry over runs: the piece index is what the accepted messages claimed. */
module RegistryRuns {
  import opened Peers
  import opened SwarmEvents
  import opened SwarmSpec
  import opened SwarmInvariants
  import opened Runs
  import R = Registries
  import M = Messages

  /** What a step does to the registry, as registry events. */
  ghost function EventsOf(c: Config, s: State, input: Input): seq<R.Event> {
    match input
    case PeerConnected(id, direction, addr, ext) =>
      (match Judge(c.clientId, s.reg, direction, id)
       case Reject => []
       case Accept => [R.Event.Connected(addr, id, direction, ext)]
       case Replace(prev) => [R.Event.Disconnected(prev), R.Event.Connected(addr, id, direction, ext)])
    case PeerDisconnected(addr) => [R.Event.Disconnected(addr)]
    case MessageReceived(addr, msg) => [R.Event.MessageFrom(addr, msg)]
    case _ => []
  }

  ghost function RegistryEvents(c: Config, init: State, tr: Trace): seq<R.Event> {
    if tr == [] then [] else RegistryEvents(c, init, Init(tr)) + EventsOf(c, Last(init, Init(tr)), tr[|tr| - 1].input)
  }

  function Apply(r: R.Registry, total: nat, es: seq<R.Event>): R.Registry {
    if es == [] then r else R.Step(Apply(r, total, es[..|es| - 1]), total, es[|es| - 1])
  }

  lemma {:induction false} RunAppend(total: nat, xs: seq<R.Event>, ys: seq<R.Event>)
    ensures R.RunOf(total, xs + ys) == Apply(R.RunOf(total, xs), total, ys)
  {
    if ys == [] {
      assert xs + ys == xs;
    } else {
      assert (xs + ys)[..|xs + ys| - 1] == xs + ys[..|ys| - 1];
      RunAppend(total, xs, ys[..|ys| - 1]);
    }
  }

  lemma ConnectionEvents(c: Config, s: State, addr: SocketAddr, direction: ConnectionDirection, id: PeerId,
                         ext: PeerExtensions, outs: seq<Output>, s': State)
    requires OnConnected(c, s, addr, direction, id, ext, outs, s')
    ensures s'.reg == Apply(s.reg, |c.metainfo.pieces|, EventsOf(c, s, PeerConnected(id, direction, addr, ext)))
  {
    hide Judge, Cancels, AcceptOutputs, R.AfterConnected, R.AfterDisconnected;
    var total := |c.metainfo.pieces|;
    match Judge(c.clientId, s.reg, direction, id)
    case Reject =>
    case Accept => OneEvent(s.reg, total, R.Event.Connected(addr, id, direction, ext));
    case Replace(prev) =>
      TwoEvents(s.reg, total, R.Event.Disconnected(prev), R.Event.Connected(addr, id, direction, ext));
  }

  lemma TwoEvents(r: R.Registry, total: nat, e: R.Event, f: R.Event)
    ensures Apply(r, total, [e, f]) == R.Step(R.Step(r, total, e), total, f)
  {
    assert [e, f][..1] == [e];
    OneEvent(r, total, e);
  }

  lemma OneEvent(r: R.Registry, total: nat, e: R.Event)
    ensures Apply(r, total, [e]) == R.Step(r, total, e)
  {
    assert [e][..0] == [];
  }

  lemma MessageEvents(c: Config, s: State, addr: SocketAddr, msg: M.Message, outs: seq<Output>, s': State)
    requires Ready(c, s) && OnMessage(c, s, addr, msg, outs, s')
    ensures s'.reg == R.Step(s.reg, |c.metainfo.pieces|, R.Event.MessageFrom(addr, msg))
  {
    hide Handled, Ready, R.ApplyMessage;
    var applied := R.ApplyMessage(s.reg, |c.metainfo.pieces|, addr, msg);
    if applied.Ok? {
      var s1 := s.(reg := applied.value);
      SameReady(c, s, s1);
      var k: nat :| Handled(c, s1, addr, msg, k, outs, s');
      HandledKeepsRegistry(c, s1, addr, msg, k, outs, s');
    }
  }

  lemma StepEvents(c: Config, s: State, input: Input, outs: seq<Output>, s': State)
    requires Ready(c, s) && Next(c, s, input, outs, s')
    ensures s'.reg == Apply(s.reg, |c.metainfo.pieces|, EventsOf(c, s, input))
  {
    hide Ready, OnConnected, OnMessage, Planned, OnPexTick, Cancels, Sends, R.AfterDisconnected;
    match input
    case PeerConnected(id, direction, addr, ext) => ConnectionEvents(c, s, addr, direction, id, ext, outs, s');
    case PeerDisconnected(addr) => OneEvent(s.reg, |c.metainfo.pieces|, R.Event.Disconnected(addr));
    case MessageReceived(addr, msg) =>
      MessageEvents(c, s, addr, msg, outs, s');
      OneEvent(s.reg, |c.metainfo.pieces|, R.Event.MessageFrom(addr, msg));
    case OnTick(BlockTick) => PlannedKeepsRegistry(c, s, outs, s');
    case _ =>
  }

  /** The registry of a run is the registry of its connection events and messages. */
  lemma {:induction false} RegistryOfRun(c: Config, init: State, tr: Trace)
    requires Run(c, init, tr)
    ensures Last(init, tr).reg == R.RunOf(|c.metainfo.pieces|, RegistryEvents(c, init, tr))
  {
    hide Next, Ready, EventsOf;
    if tr == [] {
      assert IsInit(c, init);
    } else {
      var step, before := tr[|tr| - 1], Last(init, Init(tr));
      RegistryOfRun(c, init, Init(tr));
      StepEvents(c, before, step.input, step.outs, step.after);
      RunAppend(|c.metainfo.pieces|, RegistryEvents(c, init, Init(tr)), EventsOf(c, before, step.input));
    }
  }

  /**
   * An index that is the transpose of some claims of registered peers: rarity counts the peers that claim the
   * piece, and a classified peer is a seeder exactly when it claims every piece.
   */
  ghost predicate Counts(reg: R.Registry, total: nat, claims: R.Claims) {
    && (forall piece ::
          R.Rarity(reg.byPiece, piece)
              == if R.Claimants(claims, piece) == {} then R.USIZE_MAX else |R.Claimants(claims, piece)|)
    && (forall piece :: R.Claimants(claims, piece) <= reg.peers.Keys)
    && reg.seeders !! reg.leechers
    && (forall a :: a in reg.seeders + reg.leechers ==> (a in reg.seeders <==> R.Upto(total) <= R.ClaimOf(claims, a)))
  }

  lemma TransposeCounts(reg: R.Registry, total: nat, claims: R.Claims)
    requires R.RegistryOk(reg, total) && R.Transposes(reg.byPiece, claims)
    ensures Counts(reg, total, claims)
  {
    forall piece
      ensures R.Rarity(reg.byPiece, piece)
          == if R.Claimants(claims, piece) == {} then R.USIZE_MAX else |R.Claimants(claims, piece)|
      ensures R.Claimants(claims, piece) <= reg.peers.Keys
    {
      hide R.RegistryOk, R.Transposes;
      R.RarityCounts(reg.byPiece, claims, piece);
      ClaimantsRegistered(reg, claims, piece);
    }
    forall a | a in reg.seeders + reg.leechers ensures a in reg.seeders <==> R.Upto(total) <= R.ClaimOf(claims, a) {
      R.SeederClaims(reg.byPiece, claims, total, a);
    }
  }

  /** After every run the index counts what was claimed from each registered address. */
  lemma AvailabilityIsClaimed(c: Config, init: State, tr: Trace)
    requires Run(c, init, tr)
    ensures var total := |c.metainfo.pieces|;
      Counts(Last(init, tr).reg, total, R.ReplayClaims(total, RegistryEvents(c, init, tr)))
  {
    var total, es := |c.metainfo.pieces|, RegistryEvents(c, init, tr);
    RegistryOfRun(c, init, tr);
    RunInv(c, init, tr);
    R.IndexIsTranspose(total, es);
    hide Run, R.RunOf, R.ReplayClaims, InFlightOk, ReadsOk, Ready, R.RegistryOk, Counts;
    TransposeCounts(Last(init, tr).reg, total, R.ReplayClaims(total, es));
  }

  // ---- What the peers now connected claim ----

  /** The claims of the connected peers after a step: an accepted connection starts without any. */
  ghost function ToldAfter(c: Config, s: State, claims: R.Claims, input: Input): R.Claims {
    match input
    case PeerConnected(id, direction, addr, _) =>
      (match Judge(c.clientId, s.reg, direction, id)
       case Reject => claims
       case Accept => claims - {addr}
       case Replace(prev) => claims - {prev} - {addr})
    case PeerDisconnected(addr) => claims - {addr}
    case MessageReceived(addr, msg) =>
      if R.ApplyMessage(s.reg, |c.metainfo.pieces|, addr, msg).Ok? then
        claims[addr := R.ClaimAfter(R.ClaimOf(claims, addr), |c.metainfo.pieces|, msg)]
      else claims
    case _ => claims
  }

  ghost function Told(c: Config, init: State, tr: Trace): R.Claims {
    if tr == [] then map[] else ToldAfter(c, Last(init, Init(tr)), Told(c, init, Init(tr)), tr[|tr| - 1].input)
  }

  /** A connection is accepted at an address for which the index still has something. */
  ghost predicate TakesOver(c: Config, s: State, input: Input) {
    && input.PeerConnected? && (exists p :: R.Has(s.reg.byPiece, p, input.addr))
    && match Judge(c.clientId, s.reg, input.direction, input.id)
       case Reject => false
       case Accept => true
       case Replace(prev) => prev != input.addr
  }

  ghost predicate NeverTakesOver(c: Config, init: State, tr: Trace) {
    tr != [] ==> NeverTakesOver(c, init, Init(tr)) && !TakesOver(c, Last(init, Init(tr)), tr[|tr| - 1].input)
  }

  /** After every step of the run so far the index counts exactly what the connected peers have claimed. */
  ghost predicate AlwaysCurrent(c: Config, init: State, tr: Trace) {
    && (tr != [] ==> AlwaysCurrent(c, init, Init(tr)))
    && R.Transposes(Last(init, tr).reg.byPiece, Told(c, init, tr))
  }

  lemma ConnectionTold(c: Config, s: State, input: Input, claims: R.Claims)
    requires input.PeerConnected? && R.Transposes(s.reg.byPiece, claims)
    ensures R.Transposes(Apply(s.reg, |c.metainfo.pieces|, EventsOf(c, s, input)).byPiece,
                         ToldAfter(c, s, claims, input))
      <==> !TakesOver(c, s, input)
  {
    var total := |c.metainfo.pieces|;
    var connected := R.Event.Connected(input.addr, input.id, input.direction, input.extensions);
    hide Judge, R.Transposes, R.Has, R.AfterConnected;
    match Judge(c.clientId, s.reg, input.direction, input.id)
    case Reject =>
    case Accept =>
      OneEvent(s.reg, total, connected);
      R.FreshStep(claims, s.reg, total, connected);
    case Replace(prev) =>
      TwoEvents(s.reg, total, R.Event.Disconnected(prev), connected);
      R.FreshStep(claims, s.reg, total, R.Event.Disconnected(prev));
      var between := R.AfterDisconnected(s.reg, prev);
      R.FreshStep(claims - {prev}, between, total, connected);
      R.RemovalHas(s.reg.byPiece, prev);
  }

  lemma StepTold(c: Config, s: State, input: Input, outs: seq<Output>, s': State, claims: R.Claims)
    requires Ready(c, s) && Next(c, s, input, outs, s') && R.Transposes(s.reg.byPiece, claims)
    ensures R.Transposes(s'.reg.byPiece, ToldAfter(c, s, claims, input)) <==> !TakesOver(c, s, input)
  {
    var total := |c.metainfo.pieces|;
    StepEvents(c, s, input, outs, s');
    hide Ready, Next, R.Transposes;
    if input.PeerConnected? {
      hide EventsOf, ToldAfter, TakesOver;
      ConnectionTold(c, s, input, claims);
    } else if input.PeerDisconnected? {
      OneEvent(s.reg, total, R.Event.Disconnected(input.addr));
      R.FreshStep(claims, s.reg, total, R.Event.Disconnected(input.addr));
    } else if input.MessageReceived? {
      OneEvent(s.reg, total, R.Event.MessageFrom(input.addr, input.message));
      R.FreshStep(claims, s.reg, total, R.Event.MessageFrom(input.addr, input.message));
    }
  }

  /**
   * Over every run: the index always tells what the connected peers themselves claimed exactly if no
   * connection was ever accepted at an address for which it still had something.
   */
  lemma {:induction false} AvailabilityIsCurrentIff(c: Config, init: State, tr: Trace)
    requires Run(c, init, tr)
    ensures AlwaysCurrent(c, init, tr) <==> NeverTakesOver(c, init, tr)
    ensures AlwaysCurrent(c, init, tr) ==> Counts(Last(init, tr).reg, |c.metainfo.pieces|, Told(c, init, tr))
  {
    hide Next, Ready, ToldAfter, TakesOver, Counts, R.Transposes, Inv;
    RunInv(c, init, tr);
    if tr == [] {
      NothingTold(c, init);
    } else {
      AvailabilityIsCurrentIff(c, init, Init(tr));
      var step, before := tr[|tr| - 1], Last(init, Init(tr));
      if AlwaysCurrent(c, init, Init(tr)) {
        StepTold(c, before, step.input, step.outs, step.after, Told(c, init, Init(tr)));
      }
    }
    if AlwaysCurrent(c, init, tr) {
      InvRegistry(c, Last(init, tr));
      TransposeCounts(Last(init, tr).reg, |c.metainfo.pieces|, Told(c, init, tr));
    }
  }

  lemma NothingTold(c: Config, init: State)
    requires IsInit(c, init)
    ensures R.Transposes(init.reg.byPiece, map[])
  {
  }

  lemma InvRegistry(c: Config, s: State)
    requires Inv(c, s)
    ensures R.RegistryOk(s.reg, |c.metainfo.pieces|)
  {
  }

  lemma ClaimantsRegistered(reg: R.Registry, claims: R.Claims, piece: nat)
    requires R.IndexRegistered(reg) && R.Transposes(reg.byPiece, claims)
    ensures R.Claimants(claims, piece) <= reg.peers.Keys
  {
    forall a | a in R.Claimants(claims, piece) ensures a in reg.peers {
      assert piece in R.ClaimOf(claims, a);
      assert R.Has(reg.byPiece, piece, a);
    }
  }
}
