/** A run in which a block from a peer and one from the store complete a piece together (swarm.rs, `on_local_piece`). */
module MixedPieceRun {
  import opened Wrappers
  import opened Bytes
  import opened Peers
  import opened Torrents
  import opened PieceManagers
  import opened Assignments
  import opened Registries
  import opened SwarmEvents
  import opened Scheduling
  import opened SwarmSpec
  import opened Runs
  import opened StoreRuns
  import CompletionRuns
  import M = Messages
  import Bitfields

  // ---- The torrent, the store and the peer ----

  function Good(): (r: bytes)
    ensures |r| == 2 * BLOCK_SIZE
  {
    seq(2 * BLOCK_SIZE, _ => 7)
  }

  /** What is stored: the first half differs from `Good`. */
  function Stale(): (r: bytes)
    ensures |r| == 2 * BLOCK_SIZE
  {
    seq(BLOCK_SIZE, _ => 0) + seq(BLOCK_SIZE, _ => 7)
  }

  lemma StaleIsNotGood()
    ensures Stale() != Good()
  {
    assert Stale()[0] != Good()[0];
  }

  function OneIfGood(b: bytes): Hash { if b == Good() then Digest(1) else Digest(0) }

  /** One piece of two blocks, with the hash of `Good`. */
  function Meta(): Metainfo { Metainfo(2 * BLOCK_SIZE, [Digest(1)], Single(2 * BLOCK_SIZE), []) }

  function Conf(): Config { Config([], Meta(), OneIfGood) }

  function Block(k: nat): BlockRange { BlockRange(0, k * BLOCK_SIZE, BLOCK_SIZE) }

  const PEER := V4(10, 0, 0, 1, 6881)
  function Id(): PeerId { seq(20, _ => 1) }

  const EXT := PeerExtensions(false, false)

  function Both(): seq<PieceState> { [Partial([Missing, Missing], 0)] }

  function FirstReceived(): BlockState { Received(Good()[..BLOCK_SIZE]) }

  function FirstOnly(): seq<PieceState> { [Partial([FirstReceived(), Missing], 1)] }

  lemma Geometry()
    ensures Coherent(Meta()) && PieceLen(Meta(), 0) == 2 * BLOCK_SIZE && PieceStart(Meta(), 0) == 0
    ensures BlockCount(2 * BLOCK_SIZE) == 2
    ensures forall k :: 0 <= k < 2 ==> BlockLen(2 * BLOCK_SIZE, k) == BLOCK_SIZE
    ensures TotalSize(Meta()) == 2 * BLOCK_SIZE
  {
  }

  lemma StatesOk()
    ensures PiecesOk(Meta(), Both()) && PiecesOk(Meta(), FirstOnly())
    ensures Both()[0] == NewPiece(2 * BLOCK_SIZE)
  {
    Geometry();
    assert CountReceived([Missing, Missing]) == 0 by {
      assert [Missing, Missing][..1] == [Missing] && [Missing][..0] == [];
    }
    assert CountReceived([FirstReceived(), Missing]) == 1 by {
      assert [FirstReceived(), Missing][..1] == [FirstReceived()] && [FirstReceived()][..0] == [];
    }
  }

  /** The missing blocks are the two, or the second one. */
  lemma MissingBlocks(b: BlockRange)
    ensures IsMissing(Meta(), Both(), b) <==> b == Block(0) || b == Block(1)
    ensures IsMissing(Meta(), FirstOnly(), b) <==> b == Block(1)
  {
    Geometry();
  }

  // ---- The peer connects, announces the piece and unchokes ----

  function Registered(): PeerState { NewPeer(Id(), EXT) }

  function S0(): State { State(EMPTY, map[], Both(), Active, 0, 0, map[], 0) }

  function S1(): State { AfterAccept(S0(), PEER, Inbound, Id(), EXT) }

  function Greeting(): seq<Output> { [SendToPeer(PEER, M.Bitfield([0])), SendToPeer(PEER, M.Interested)] }

  lemma NothingToAnnounce()
    ensures Announces(Both(), false, M.Bitfield([0]))
  {
    assert Bitfields.SetBits([0]) == {} by {
      forall i: nat | i < 8 ensures !Bitfields.BitAt([0], i) {
      }
    }
    assert CompleteSet(Both()) == {};
  }

  function Step1(): Step { Step(PeerConnected(Id(), Inbound, PEER, EXT), Greeting(), S1()) }

  /** From `s` the step is possible, and it writes nothing. */
  ghost predicate Follows(s: State, step: Step) {
    Ready(Conf(), s) && Next(Conf(), s, step.input, step.outs, step.after) && Quiet(step.outs)
  }

  /** A message is applied to the registry and handled. */
  lemma MessageFollows(s: State, msg: M.Message, reg: Registry, k: nat, outs: seq<Output>, s': State)
    requires Ready(Conf(), s) && Ready(Conf(), s.(reg := reg)) && ApplyMessage(s.reg, 1, PEER, msg) == Ok(reg)
    requires Handled(Conf(), s.(reg := reg), PEER, msg, k, outs, s') && Quiet(outs)
    ensures Follows(s, Step(MessageReceived(PEER, msg), outs, s'))
  {
    hide ApplyMessage, Handled, PiecesOk, Quiet;
    Geometry();
  }

  lemma Connects()
    ensures Follows(S0(), Step1())
  {
    Geometry();
    StatesOk();
    NothingToAnnounce();
    hide Announces, PiecesOk;
  }

  function S2(): State { S1().(reg := Heard(S1().reg, M.Have(0))) }

  function Heard(r: Registry, msg: M.Message): Registry {
    match ApplyMessage(r, 1, PEER, msg) case Ok(r') => r' case Err(_) => r
  }

  /** The peer, the only one, is known to have the piece. */
  ghost predicate Knows(r: Registry, choking: bool) {
    && r.peers.Keys == {PEER} && r.peers[PEER].peerChoking == choking && !r.peers[PEER].fast
    && r.peers[PEER].allowedFast == {} && Has(r.byPiece, 0, PEER)
  }

  lemma Hears(r: Registry)
    requires Knows(r, true)
    ensures ApplyMessage(r, 1, PEER, M.Unchoke).Ok? && Knows(Heard(r, M.Unchoke), false)
  {
  }

  lemma HearsPiece(r: Registry, range: BlockRange, data: bytes)
    requires Knows(r, false)
    ensures ApplyMessage(r, 1, PEER, M.Piece(range, data)).Ok? && Knows(Heard(r, M.Piece(range, data)), false)
  {
  }

  lemma HaveIsHeard()
    ensures ApplyMessage(S1().reg, 1, PEER, M.Have(0)).Ok? && Knows(S2().reg, true)
  {
    assert S1().reg.peers == map[PEER := Registered()];
  }

  function Step2(): Step { Step(MessageReceived(PEER, M.Have(0)), [SendToPeer(PEER, M.Interested)], S2()) }

  lemma Announced()
    ensures Follows(S1(), Step2())
  {
    Geometry();
    StatesOk();
    HaveIsHeard();
    hide ApplyMessage, PiecesOk, Planned, Follows;
    var outs := [SendToPeer(PEER, M.Interested)];
    assert outs[..1] == outs;
    MessageFollows(S1(), M.Have(0), S2().reg, 1, outs, S2());
  }

  // ---- Both blocks are requested ----

  function Requests(): seq<BlockRequest> { [BlockRequest(PEER, Block(0)), BlockRequest(PEER, Block(1))] }

  lemma OneHolder(a: InFlight, b: BlockRange)
    requires a.Keys <= {PEER}
    ensures Count(a, b) == if IsHolder(a, b, PEER) then 1 else 0
    ensures forall addr :: IsHolder(a, b, addr) ==> addr == PEER
  {
    assert Holders(a, b) == if IsHolder(a, b, PEER) then {PEER} else {};
  }

  /** A request for a missing block nobody was asked for is sound if every block before it has been asked for. */
  lemma RequestIsSound(sc: Scene, a: InFlight, k: nat)
    requires sc.m == Meta() && sc.states == Both() && sc.depth == 1 && Knows(sc.reg, false) && k < 2
    requires a.Keys <= {PEER} && HeldBy(a, PEER) == if k == 0 then {} else {Block(0)}
    ensures Sound(sc, a, BlockRequest(PEER, Block(k)))
  {
    MissingBlocks(Block(k));
    OneHolder(a, Block(k));
    forall b | IsMissing(sc.m, sc.states, b) ensures !MoreUrgent(sc, a, b, Block(k)) {
      MissingBlocks(b);
      OneHolder(a, b);
    }
  }

  /** Nobody is left to ask once the only peer has been asked for what is missing. */
  lemma NobodyLeft(sc: Scene, a: InFlight, b: BlockRange)
    requires Knows(sc.reg, false) && IsHolder(a, b, PEER)
    ensures Stuck(sc.reg, a, b)
  {
  }

  lemma BothAreRequested(sc: Scene, budget: nat)
    requires sc.m == Meta() && sc.states == Both() && sc.depth == 1 && Knows(sc.reg, false) && budget >= 2
    ensures IsPlan(sc, map[], budget, Requests())
    ensures HeldBy(AssignAll(map[], Requests()), PEER) == {Block(0), Block(1)}
  {
    var rs, a1 := Requests(), AssignTo(map[], Block(0), PEER);
    assert rs[..0] == [] && rs[..1] == [rs[0]] && rs[..1][..0] == [];
    assert AssignAll(map[], rs[..1]) == a1;
    hide Sound, Exhausted;
    RequestIsSound(sc, map[], 0);
    RequestIsSound(sc, a1, 1);
    var a2 := AssignAll(map[], rs);
    assert a2 == AssignTo(a1, Block(1), PEER);
    BothHeld(sc, a2);
  }

  lemma BothHeld(sc: Scene, a: InFlight)
    requires sc.m == Meta() && sc.states == Both() && Knows(sc.reg, false) && HeldBy(a, PEER) == {Block(0), Block(1)}
    ensures Exhausted(sc, a)
  {
    forall b | IsMissing(sc.m, sc.states, b) ensures Stuck(sc.reg, a, b) {
      MissingBlocks(b);
      NobodyLeft(sc, a, b);
    }
  }

  function S3(): State { S2().(reg := Heard(S2().reg, M.Unchoke), inFlight := AssignAll(map[], Requests())) }

  lemma OneSlotTable(s: State)
    requires Knows(s.reg, false) && s.inFlight == map[]
    ensures Budget(s) == 32 && |Unchoked(s.reg)| == 1
  {
    assert Unchoked(s.reg) == {PEER};
    assert SlotsTable(s) == map[PEER := 32];
    var none: map<SocketAddr, nat> := map[];
    TotalInsert(none, PEER, 32);
    assert none - {PEER} == none && none[PEER := 32] == map[PEER := 32];
  }

  lemma BothPlanned(s: State)
    requires Knows(s.reg, false) && s.inFlight == map[] && s.pieces == Both() && s.status == Active
    ensures Planned(Conf(), s, RequestOutputs(Requests()), s.(inFlight := AssignAll(map[], Requests())))
  {
    OneSlotTable(s);
    BothAreRequested(SceneOf(Conf(), s), Budget(s));
    hide IsPlan, Budget, RequestOutputs, AssignAll, Knows, Requests;
    assert PlansWith(Conf(), s, Requests(), RequestOutputs(Requests()), s.(inFlight := AssignAll(map[], Requests())));
  }

  function Step3(): Step { Step(MessageReceived(PEER, M.Unchoke), RequestOutputs(Requests()), S3()) }

  lemma UnchokeHandled(s: State, outs: seq<Output>, s': State)
    requires Ready(Conf(), s) && Planned(Conf(), s, outs, s')
    ensures Handled(Conf(), s, PEER, M.Unchoke, 0, outs, s')
  {
    hide Planned, PiecesOk;
    assert outs[..0] == [] && outs[0..] == outs;
  }

  lemma Unchokes()
    ensures Follows(S2(), Step3()) && Knows(S3().reg, false)
  {
    Geometry();
    StatesOk();
    HaveIsHeard();
    Hears(S2().reg);
    var s := S2().(reg := Heard(S2().reg, M.Unchoke));
    hide ApplyMessage, PiecesOk, RequestOutputs, AssignAll, Knows, Follows, Planned, Handled;
    assert s.inFlight == map[];
    BothPlanned(s);
    PlanIsQuiet(Requests());
    UnchokeHandled(s, RequestOutputs(Requests()), S3());
    MessageFollows(S2(), M.Unchoke, s.reg, 0, RequestOutputs(Requests()), S3());
  }

  // ---- The first block arrives ----

  function Delivery(): M.Message { M.Piece(Block(0), Good()[..BLOCK_SIZE]) }

  function S4(): State {
    S3().(reg := Heard(S3().reg, Delivery()), inFlight := UnassignFrom(S3().inFlight, Block(0), PEER),
          pieces := FirstOnly(), downloaded := BLOCK_SIZE)
  }

  lemma BlockIsStored()
    ensures PiecesOk(Meta(), Both())
    ensures ReceiveInto(OneIfGood, Meta(), Both(), Block(0), Good()[..BLOCK_SIZE]) == (Ok(None), FirstOnly())
  {
    Geometry();
    StatesOk();
    assert [Missing, Missing][0 := FirstReceived()] == [FirstReceived(), Missing];
    assert Both()[0 := Partial([FirstReceived(), Missing], 1)] == FirstOnly();
  }

  lemma SecondHeld(sc: Scene, a: InFlight)
    requires sc.m == Meta() && sc.states == FirstOnly() && Knows(sc.reg, false) && HeldBy(a, PEER) == {Block(1)}
    ensures IsPlan(sc, a, 0, [])
  {
    forall b | IsMissing(sc.m, sc.states, b) ensures Stuck(sc.reg, a, b) {
      MissingBlocks(b);
      NobodyLeft(sc, a, b);
    }
    assert Exhausted(sc, AssignAll(a, []));
  }

  lemma Held()
    requires Knows(S3().reg, false)
    ensures HeldBy(S3().inFlight, PEER) == {Block(0), Block(1)} && HeldBy(S4().inFlight, PEER) == {Block(1)}
  {
    var sc := Scene(Meta(), S3().reg, Both(), 1);
    BothAreRequested(sc, 2);
    assert Block(0) != Block(1);
    hide AssignAll, Requests;
  }

  function Step4(): Step { Step(MessageReceived(PEER, Delivery()), [], S4()) }

  lemma Delivers()
    ensures Follows(S3(), Step4())
  {
    Geometry();
    StatesOk();
    Unchokes();
    Held();
    HearsPiece(S3().reg, Block(0), Good()[..BLOCK_SIZE]);
    var s := S3().(reg := Heard(S3().reg, Delivery()));
    hide ApplyMessage, PiecesOk, AssignAll, Knows, ReceiveInto, Follows, Handled, Planned;
    DeliveryHandled(s);
    MessageFollows(S3(), Delivery(), s.reg, 0, [], S4());
  }

  lemma SecondPlanned(s: State)
    requires Knows(s.reg, false) && HeldBy(s.inFlight, PEER) == {Block(1)} && s.pieces == FirstOnly()
    requires s.status == Active
    requires Ready(Conf(), s)
    ensures Planned(Conf(), s, [], s)
  {
    assert |Unchoked(s.reg)| >= 0;
    SecondHeld(SceneOf(Conf(), s), s.inFlight);
    hide AssignAll, AllSound, Exhausted, Budget, Knows, PiecesOk;
    NothingAssigned(s.inFlight);
    assert PlansWith(Conf(), s, [], [], s);
  }

  lemma NothingAssigned(a: InFlight)
    ensures AssignAll(a, []) == a
  {
  }

  lemma DeliveryHandled(s: State)
    requires Ready(Conf(), s) && s == S3().(reg := S4().reg) && Knows(s.reg, false)
    requires HeldBy(s.inFlight, PEER) == {Block(0), Block(1)} && HeldBy(S4().inFlight, PEER) == {Block(1)}
    ensures Ready(Conf(), S4()) && Handled(Conf(), s, PEER, Delivery(), 0, [], S4())
  {
    StatesOk();
    Geometry();
    BlockIsStored();
    hide ReceiveInto, PiecesOk, AssignAll, Planned, Knows, ApplyMessage;
    SecondPlanned(S4());
    var outs: seq<Output> := [];
    assert outs[..0] == outs && outs[0..] == outs;
    assert AfterMessage(Conf(), s, PEER, Delivery()) == S4();
  }

  // ---- The store provides the rest ----

  function TheRun(): Trace { [Step1(), Step2(), Step3(), Step4()] }

  /** A run that ends in `s` and has written nothing. */
  ghost predicate Leads(tr: Trace, s: State) {
    Coherent(Meta()) && Run(Conf(), S0(), tr) && Last(S0(), tr) == s && StoreOf(Meta(), Stale(), tr) == Stale()
  }

  lemma LeadsOn(tr: Trace, s: State, step: Step)
    requires Leads(tr, s) && Follows(s, step)
    ensures Leads(tr + [step], step.after)
  {
    hide Next, Ready, Quiet;
    assert Init(tr + [step]) == tr;
    QuietKeepsStore(Meta(), Stale(), step.outs);
  }

  lemma LeadsNowhere()
    ensures Leads([], S0())
  {
    Geometry();
    StatesOk();
  }

  lemma Afters()
    ensures Step1().after == S1() && Step2().after == S2() && Step3().after == S3() && Step4().after == S4()
    ensures [] + [Step1()] + [Step2()] + [Step3()] + [Step4()] == TheRun()
  {
    hide S1, S2, S3, S4, RequestOutputs, Greeting;
  }

  lemma ItRuns()
    ensures Leads(TheRun(), S4())
  {
    Afters();
    hide *;
    LeadsNowhere();
    Connects();
    LeadsOn([], S0(), Step1());
    Announced();
    LeadsOn([] + [Step1()], S1(), Step2());
    Unchokes();
    LeadsOn([] + [Step1()] + [Step2()], S2(), Step3());
    Delivers();
    LeadsOn([] + [Step1()] + [Step2()] + [Step3()], S3(), Step4());
  }

  lemma MixtureIsGood()
    ensures BlockCount(|Stale()|) == 2 && Joined(Filled([FirstReceived(), Missing], Stale())) == Good()
  {
    var blocks := Filled([FirstReceived(), Missing], Stale());
    assert BlockSlice(Stale(), 1) == BlockSlice(Good(), 1);
    assert BlockSlice(Good(), 0) == Good()[..BLOCK_SIZE];
    JoinedIs(blocks, Good());
    assert Good()[..|Good()|] == Good();
  }

  lemma StoredIsStale()
    ensures Coherent(Meta()) && PieceBytes(Meta(), Stale(), 0) == Stale()
  {
    Geometry();
  }

  /** What the store holds is offered: the piece becomes complete, and nothing is written. */
  lemma StoreCompletes()
    ensures Ready(Conf(), S4()) && AfterLocal(Conf(), S4(), 0, Stale()).pieces[0].Complete?
  {
    Geometry();
    StatesOk();
    MixtureIsGood();
    hide Filled, Joined, FillLocal, UnreceivedBlocks, PiecesOk;
    CompletionRuns.FillFromStore(OneIfGood, Meta(), FirstOnly(), 0, Stale());
  }

  lemma StaleIsOffered()
    ensures Ready(Conf(), S4()) && Verified(Conf(), S4(), Stale())
    ensures var s' := AfterLocal(Conf(), S4(), 0, Stale());
      Ready(Conf(), s') && !Verified(Conf(), s', Stale()) && Next(Conf(), S4(), LocalPiece(0, Stale()), [], s')
  {
    StoreCompletes();
    var s := S4();
    assert s.pieces == FirstOnly();
    hide AfterLocal, Ready, Verified, Next, S4, FirstOnly, Stale;
    OfferedTo(s);
  }

  lemma OfferedTo(s: State)
    requires Ready(Conf(), s) && s.pieces == FirstOnly() && AfterLocal(Conf(), s, 0, Stale()).pieces[0].Complete?
    ensures Verified(Conf(), s, Stale())
    ensures var s' := AfterLocal(Conf(), s, 0, Stale());
      Ready(Conf(), s') && !Verified(Conf(), s', Stale()) && Next(Conf(), s, LocalPiece(0, Stale()), [], s')
  {
    StoredIsStale();
    StaleIsNotGood();
    Geometry();
    assert OneIfGood(Stale())[0] != Digest(1)[0];
    hide FillLocal, UnreceivedBlocks, PiecesOk, Stale, PieceBytes;
  }

  /**
   * After the run every complete piece is stored with its hash. Then the store offers what it holds for the first
   * piece, the swarm outputs nothing, and now a complete piece is not stored with its hash.
   */
  ghost predicate Deviates(c: Config, init: State, tr: Trace, store: bytes, s': State) {
    && Run(c, init, tr) && Ready(c, Last(init, tr)) && Ready(c, s')
    && StoreOf(c.metainfo, store, tr) == store && Verified(c, Last(init, tr), store)
    && Next(c, Last(init, tr), LocalPiece(0, PieceBytes(c.metainfo, store, 0)), [], s')
    && !Verified(c, s', store)
  }

  /**
   * It can happen: a peer connects, announces the piece, unchokes us and delivers the first block, and then the
   * store, which holds other bytes there, provides the second one. The piece completes, nothing has been or is
   * written, and the stored bytes do not have the expected hash.
   */
  lemma MixedPieceIsNotStored()
    ensures exists c, init, tr, store, s' :: Deviates(c, init, tr, store, s')
  {
    ThisDeviates(Conf(), S4());
    hide Deviates, AfterLocal, S0, S4, TheRun, Stale;
  }

  lemma ThisDeviates(c: Config, s: State)
    requires c == Conf() && s == S4()
    ensures Ready(c, s) && Deviates(c, S0(), TheRun(), Stale(), AfterLocal(c, s, 0, Stale()))
  {
    hide Run, Ready, Next, Verified, StoreOf, TheRun, S0, S4, AfterLocal, PieceBytes, OneIfGood;
    ItRuns();
    StoredIsStale();
    StaleIsOffered();
  }
}
