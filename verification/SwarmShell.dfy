/** The state around the swarm: open command channels and outstanding disk reads (adapters/swarm_io.rs). */
module SwarmShell {
  import opened Wrappers
  import opened Bytes
  import opened Listings
  import opened Peers
  import opened Torrents
  import opened PieceManagers
  import opened Registries
  import opened SwarmEvents
  import opened SwarmSpec
  import opened SwarmInvariants
  import opened Runs
  import opened UploadRuns
  import opened StoreRuns
  import opened DiskStorages
  import M = Messages

  /** The swarm, the peers with a command channel, and the read tasks with their ranges. */
  datatype Shell = Shell(s: State, cmds: set<SocketAddr>, handles: map<nat, BlockRange>)

  function Has<K, V>(m: map<K, V>, k: K): nat { if k in m then 1 else 0 }

  // ---- Bookkeeping while outputs wait to be handled ----

  /** Every id is handled, pending, about to be issued or about to be cancelled consistently. */
  ghost predicate ReadsBalance(handles: map<nat, BlockRange>, pending: Reads, stack: seq<Output>, rest: seq<Output>) {
    forall id: nat ::
      Has(handles, id) + IssueIds(stack, id) + IssueIds(rest, id)
        == Ids(pending, id) + CancelIds(stack, id) + CancelIds(rest, id)
  }

  /** A read task knows the range its read is pending under. */
  ghost predicate SameRanges(handles: map<nat, BlockRange>, pending: Reads) {
    forall r :: r in pending && pending[r].readId in handles ==> handles[pending[r].readId] == r
  }

  ghost predicate Mentioned(outs: seq<Output>, addr: SocketAddr) {
    exists o :: o in outs && (o.SendToPeer? || o.DisconnectPeer?) && o.addr == addr
  }

  /** A registered peer has a channel, or an output is waiting that will either use one or remove the peer. */
  ghost predicate Reachable(reg: Registry, cmds: set<SocketAddr>, stack: seq<Output>, rest: seq<Output>) {
    forall a :: a in reg.peers ==> a in cmds || Mentioned(stack, a) || Mentioned(rest, a)
  }

  ghost predicate NoIssues(outs: seq<Output>) {
    forall o :: o in outs ==> !o.ReadForUpload?
  }

  ghost predicate IsIssue(pending: Reads, o: Output) {
    o.ReadForUpload? && o.range in pending && pending[o.range].readId == o.readId
  }

  /** A read that is about to be issued is the only output of its step. */
  ghost predicate LoneIssue(pending: Reads, stack: seq<Output>, rest: seq<Output>) {
    || (NoIssues(stack) && NoIssues(rest))
    || (|stack| == 1 && rest == [] && IsIssue(pending, stack[0]))
    || (stack == [] && |rest| == 1 && IsIssue(pending, rest[0]))
  }

  ghost predicate Balanced(c: Config, sh: Shell, stack: seq<Output>, rest: seq<Output>): (ok: bool)
    ensures ok ==> Ready(c, sh.s)
  {
    && Inv(c, sh.s)
    && ReadsBalance(sh.handles, sh.s.pending, stack, rest)
    && SameRanges(sh.handles, sh.s.pending)
    && Reachable(sh.s.reg, sh.cmds, stack, rest)
    && LoneIssue(sh.s.pending, stack, rest)
  }

  /** What holds whenever the event loop waits: one read task per pending read, and a channel per registered peer. */
  ghost predicate BooksSettled(c: Config, sh: Shell) {
    && Inv(c, sh.s)
    && (forall r :: r in sh.s.pending ==>
          sh.s.pending[r].readId in sh.handles && sh.handles[sh.s.pending[r].readId] == r)
    && (forall id :: id in sh.handles ==> sh.handles[id] in sh.s.pending && sh.s.pending[sh.handles[id]].readId == id)
    && sh.s.reg.peers.Keys <= sh.cmds
  }

  lemma IdsPositive(pending: Reads, id: nat) returns (r: BlockRange)
    requires Ids(pending, id) > 0
    ensures r in pending && pending[r].readId == id
    decreases |pending|
  {
    assert pending != map[] by {
      NoIds(id);
    }
    var x :| x in pending;
    if pending[x].readId == id {
      r := x;
    } else {
      IdsRemove(pending, x, id);
      r := IdsPositive(pending - {x}, id);
    }
  }

  /** With nothing left to handle the books are settled. */
  lemma BalancedSettles(c: Config, sh: Shell)
    requires Balanced(c, sh, [], [])
    ensures BooksSettled(c, sh)
  {
    hide Inv;
    forall r | r in sh.s.pending ensures sh.s.pending[r].readId in sh.handles {
      var id := sh.s.pending[r].readId;
      assert Has(sh.handles, id) == Ids(sh.s.pending, id) by { Nothing(id); }
      IdsRemove(sh.s.pending, r, id);
    }
    forall id | id in sh.handles ensures sh.handles[id] in sh.s.pending && sh.s.pending[sh.handles[id]].readId == id {
      assert Has(sh.handles, id) == Ids(sh.s.pending, id) by { Nothing(id); }
      var r := IdsPositive(sh.s.pending, id);
    }
  }

  lemma Nothing(id: nat)
    ensures IssueIds([], id) == CancelIds([], id) == 0
  {
  }

  lemma SettledBalances(c: Config, sh: Shell)
    requires BooksSettled(c, sh)
    ensures Balanced(c, sh, [], [])
  {
    forall id: nat ensures Has(sh.handles, id) == Ids(sh.s.pending, id) {
      if id in sh.handles {
        var r := sh.handles[id];
        IdsRemove(sh.s.pending, r, id);
        if Ids(sh.s.pending - {r}, id) > 0 {
          var q := IdsPositive(sh.s.pending - {r}, id);
          assert false;
        }
      } else if Ids(sh.s.pending, id) > 0 {
        var q := IdsPositive(sh.s.pending, id);
        assert false;
      }
    }
  }

  // ---- Handling one output ----

  lemma {:induction false} NoIssuesNoIds(outs: seq<Output>, id: nat)
    requires NoIssues(outs)
    ensures IssueIds(outs, id) == 0
  {
    if outs != [] {
      NoIssuesNoIds(outs[..|outs| - 1], id);
    }
  }

  lemma MentionedIn(outs: seq<Output>, addr: SocketAddr)
    requires outs != [] && Mentioned(outs, addr)
    ensures var o := outs[|outs| - 1];
      Mentioned(outs[..|outs| - 1], addr) || ((o.SendToPeer? || o.DisconnectPeer?) && o.addr == addr)
  {
    var o :| o in outs && (o.SendToPeer? || o.DisconnectPeer?) && o.addr == addr;
    if o != outs[|outs| - 1] {
      assert o in outs[..|outs| - 1];
    }
  }

  /** Taking an output that concerns neither reads nor a single peer off the stack. */
  lemma PopOther(c: Config, sh: Shell, stack: seq<Output>, rest: seq<Output>, cmds: set<SocketAddr>)
    requires stack != [] && Balanced(c, sh, stack, rest) && sh.cmds <= cmds
    requires var o := stack[|stack| - 1];
      !(o.ReadForUpload? || o.CancelUploadRead? || o.DisconnectPeer? || (o.SendToPeer? && o.addr !in cmds))
    ensures Balanced(c, sh.(cmds := cmds), stack[..|stack| - 1], rest)
  {
    hide Inv, Ids;
    var init := stack[..|stack| - 1];
    forall a | a in sh.s.reg.peers && a !in cmds ensures Mentioned(init, a) || Mentioned(rest, a) {
      if Mentioned(stack, a) {
        MentionedIn(stack, a);
      }
    }
  }

  /** A message that could not be sent is replaced by a disconnection of its peer. */
  lemma SendFails(c: Config, sh: Shell, stack: seq<Output>, rest: seq<Output>)
    requires stack != [] && stack[|stack| - 1].SendToPeer? && Balanced(c, sh, stack, rest)
    ensures Balanced(c, sh, stack[..|stack| - 1] + [DisconnectPeer(stack[|stack| - 1].addr)], rest)
  {
    hide Inv, Ids;
    var init, gone := stack[..|stack| - 1], DisconnectPeer(stack[|stack| - 1].addr);
    forall a | a in sh.s.reg.peers && a !in sh.cmds ensures Mentioned(init + [gone], a) || Mentioned(rest, a) {
      if Mentioned(stack, a) {
        MentionedIn(stack, a);
        if Mentioned(init, a) {
          MentionedMore(init, [gone], a);
        } else {
          assert gone in init + [gone];
        }
      }
    }
    assert (init + [gone])[..|init|] == init;
  }

  lemma MentionedMore(xs: seq<Output>, ys: seq<Output>, addr: SocketAddr)
    requires Mentioned(xs, addr)
    ensures Mentioned(xs + ys, addr)
  {
    var o :| o in xs && (o.SendToPeer? || o.DisconnectPeer?) && o.addr == addr;
    assert o in xs + ys;
  }

  /** More disconnections may always be put on the stack. */
  lemma PushDisconnect(c: Config, sh: Shell, stack: seq<Output>, rest: seq<Output>, addr: SocketAddr)
    requires Balanced(c, sh, stack, rest) && NoIssues(stack) && NoIssues(rest)
    ensures Balanced(c, sh, stack + [DisconnectPeer(addr)], rest)
  {
    hide Inv, Ids;
    forall a | a in sh.s.reg.peers && a !in sh.cmds && Mentioned(stack, a)
      ensures Mentioned(stack + [DisconnectPeer(addr)], a) {
      MentionedMore(stack, [DisconnectPeer(addr)], a);
    }
    assert (stack + [DisconnectPeer(addr)])[..|stack|] == stack;
  }

  /** Issuing a read inserts its task. */
  lemma PopIssue(c: Config, sh: Shell, id: nat, range: BlockRange)
    requires Balanced(c, sh, [ReadForUpload(id, range)], [])
    ensures Balanced(c, sh.(handles := sh.handles[id := range]), [], [])
  {
    hide Inv, Ids;
    var o := ReadForUpload(id, range);
    assert !NoIssues([o]) by {
      assert o in [o];
    }
    forall x: nat ensures Has(sh.handles[id := range], x) == Ids(sh.s.pending, x) {
      OneOutput(o, x);
      Nothing(x);
      if x == id {
        PendingOnce(c, sh.s, range);
      }
    }
    forall a | a in sh.s.reg.peers ensures a in sh.cmds {
      assert !Mentioned([o], a);
    }
    forall r | r in sh.s.pending && sh.s.pending[r].readId == id ensures r == range {
      assert Inv(c, sh.s);
      SameId(c, sh.s, r, range);
    }
  }

  lemma PendingOnce(c: Config, s: State, range: BlockRange)
    requires Inv(c, s) && range in s.pending
    ensures Ids(s.pending, s.pending[range].readId) == 1
  {
    var id := s.pending[range].readId;
    hide Ids, Ready, RegistryOk, InFlightOk;
    IdsRemove(s.pending, range, id);
    if Ids(s.pending - {range}, id) > 0 {
      var q := IdsPositive(s.pending - {range}, id);
      assert false;
    }
  }

  lemma SameId(c: Config, s: State, q: BlockRange, r: BlockRange)
    requires Inv(c, s) && q in s.pending && r in s.pending && s.pending[q].readId == s.pending[r].readId
    ensures q == r
  {
  }

  /** Cancelling a read drops its task. */
  lemma PopCancel(c: Config, sh: Shell, stack: seq<Output>, rest: seq<Output>)
    requires stack != [] && stack[|stack| - 1].CancelUploadRead? && Balanced(c, sh, stack, rest)
    ensures Balanced(c, sh.(handles := sh.handles - {stack[|stack| - 1].readId}), stack[..|stack| - 1], rest)
  {
    hide Inv, Ids;
    var init, id := stack[..|stack| - 1], stack[|stack| - 1].readId;
    assert NoIssues(stack) && NoIssues(rest);
    forall x: nat ensures Has(sh.handles - {id}, x) + IssueIds(init, x) + IssueIds(rest, x)
      == Ids(sh.s.pending, x) + CancelIds(init, x) + CancelIds(rest, x) {
      NoIssuesNoIds(stack, x);
      NoIssuesNoIds(rest, x);
      assert Has(sh.handles, x) + IssueIds(stack, x) + IssueIds(rest, x)
        == Ids(sh.s.pending, x) + CancelIds(stack, x) + CancelIds(rest, x);
    }
    forall a | a in sh.s.reg.peers && a !in sh.cmds ensures Mentioned(init, a) || Mentioned(rest, a) {
      if Mentioned(stack, a) {
        MentionedIn(stack, a);
      }
    }
  }

  function Reversed(outs: seq<Output>): (r: seq<Output>)
    ensures |r| == |outs| && forall o :: o in r <==> o in outs
  {
    if outs == [] then [] else [outs[|outs| - 1]] + Reversed(outs[..|outs| - 1])
  }

  lemma {:induction false} ReversedIds(outs: seq<Output>, id: nat)
    ensures IssueIds(Reversed(outs), id) == IssueIds(outs, id) && CancelIds(Reversed(outs), id) == CancelIds(outs, id)
  {
    if outs != [] {
      var init, last := outs[..|outs| - 1], outs[|outs| - 1];
      ReversedIds(init, id);
      IdsAppend([last], Reversed(init), id);
      OneOutput(last, id);
    }
  }

  /** Disconnecting a peer takes its channel and its registration, and leaves the cancellations to handle. */
  lemma PopDisconnect(c: Config, sh: Shell, stack: seq<Output>, rest: seq<Output>, outs: seq<Output>, s': State)
    requires stack != [] && stack[|stack| - 1].DisconnectPeer? && Balanced(c, sh, stack, rest)
    requires OnDisconnected(sh.s, stack[|stack| - 1].addr, outs, s')
    ensures Balanced(c, Shell(s', sh.cmds - {stack[|stack| - 1].addr}, sh.handles),
                     stack[..|stack| - 1] + Reversed(outs), rest)
    ensures forall o :: o in outs ==> o.CancelUploadRead?
    ensures s'.pieces == sh.s.pieces && |s'.pending| + |outs| == |sh.s.pending|
  {
    hide Inv, ReadsBalance, SameRanges, Reachable, Cancels;
    var init, addr := stack[..|stack| - 1], stack[|stack| - 1].addr;
    GoneKeeps(c, sh.s, addr);
    CancelsOnlyCancel(sh.s.pending, Orphaned(sh.s.pending, addr), outs);
    OrphansCounted(sh.s.pending, addr, outs);
    DisconnectBalances(sh, stack, rest, outs, s');
    DisconnectReaches(sh.s.reg, sh.cmds, stack, rest, Reversed(outs));
  }

  lemma DisconnectReaches(reg: Registry, cmds: set<SocketAddr>, stack: seq<Output>, rest: seq<Output>,
                          more: seq<Output>)
    requires stack != [] && stack[|stack| - 1].DisconnectPeer? && Reachable(reg, cmds, stack, rest)
    ensures var addr := stack[|stack| - 1].addr;
      Reachable(AfterDisconnected(reg, addr), cmds - {addr}, stack[..|stack| - 1] + more, rest)
  {
    var init, addr := stack[..|stack| - 1], stack[|stack| - 1].addr;
    forall a | a in reg.peers && a != addr && a !in cmds ensures Mentioned(init + more, a) || Mentioned(rest, a) {
      if Mentioned(stack, a) {
        MentionedIn(stack, a);
        MentionedMore(init, more, a);
      }
    }
  }

  lemma DisconnectBalances(sh: Shell, stack: seq<Output>, rest: seq<Output>, outs: seq<Output>, s': State)
    requires stack != [] && stack[|stack| - 1].DisconnectPeer? && NoIssues(stack) && NoIssues(rest)
    requires ReadsBalance(sh.handles, sh.s.pending, stack, rest) && SameRanges(sh.handles, sh.s.pending)
    requires OnDisconnected(sh.s, stack[|stack| - 1].addr, outs, s')
    ensures ReadsBalance(sh.handles, s'.pending, stack[..|stack| - 1] + Reversed(outs), rest)
    ensures SameRanges(sh.handles, s'.pending)
  {
    hide Ids, Cancels;
    var init, addr := stack[..|stack| - 1], stack[|stack| - 1].addr;
    forall id: nat ensures Has(sh.handles, id) + IssueIds(init + Reversed(outs), id) + IssueIds(rest, id)
      == Ids(s'.pending, id) + CancelIds(init + Reversed(outs), id) + CancelIds(rest, id) {
      GoneConserves(sh.s, addr, outs, id);
      ReversedIds(outs, id);
      IdsAppend(init, Reversed(outs), id);
      NoIssuesNoIds(stack, id);
      NoIssuesNoIds(rest, id);
      assert Has(sh.handles, id) + IssueIds(stack, id) + IssueIds(rest, id)
        == Ids(sh.s.pending, id) + CancelIds(stack, id) + CancelIds(rest, id);
    }
  }

  lemma OrphansCounted(pending: Reads, addr: SocketAddr, outs: seq<Output>)
    requires Cancels(pending, Orphaned(pending, addr), outs)
    ensures |WithoutWaiter(pending, addr)| + |outs| == |pending|
  {
    var order :| Listing(order, Orphaned(pending, addr)) && CancelsOf(pending, order, outs);
    ListingLength(order, Orphaned(pending, addr));
    OrphansRemoved(pending, addr);
    KeysCount(WithoutWaiter(pending, addr));
    KeysCount(pending);
    hide *;
  }

  lemma OrphansRemoved(pending: Reads, addr: SocketAddr)
    ensures |WithoutWaiter(pending, addr).Keys| + |Orphaned(pending, addr)| == |pending.Keys|
  {
    var kept, gone := WithoutWaiter(pending, addr).Keys, Orphaned(pending, addr);
    assert kept !! gone;
    assert kept + gone == pending.Keys;
  }

  lemma KeysCount(m: Reads)
    ensures |m| == |m.Keys|
  {
  }

  // ---- One input ----

  lemma HandlerNumbers(c: Config, s: State, addr: SocketAddr, msg: M.Message)
    requires Ready(c, s)
    ensures AfterMessage(c, s, addr, msg).nextId == s.nextId ||
      (msg.Request? && FateOf(c, s, msg.range).Fresh?
       && AfterMessage(c, s, addr, msg).pending == s.pending[msg.range := PendingRead(s.nextId, {addr})]
       && AfterMessage(c, s, addr, msg).nextId == s.nextId + 1)
  {
    hide Receipt, FateOf, Ready;
  }

  /** A step that issues a read outputs nothing else. */
  lemma FreshIsLone(c: Config, s: State, addr: SocketAddr, msg: M.Message, k: nat, outs: seq<Output>, s': State)
    requires Ready(c, s) && Handled(c, s, addr, msg, k, outs, s') && s'.nextId != s.nextId
    ensures msg.Request? && outs == [ReadForUpload(s.nextId, msg.range)]
    ensures msg.range in s'.pending && s'.pending[msg.range].readId == s.nextId && s'.nextId == s.nextId + 1
  {
    HandlerNumbers(c, s, addr, msg);
    hide AfterMessage, Planned, FateOf, Ready;
    if msg.AffectsScheduling() {
      PlannedConserves(c, AfterMessage(c, s, addr, msg), outs[k..], s', 0);
    }
  }

  lemma StepIssues(c: Config, s: State, input: Input, outs: seq<Output>, s': State)
    requires Inv(c, s) && Next(c, s, input, outs, s')
    ensures LoneIssue(s'.pending, outs, [])
    ensures (NoIssues(outs) <==> s'.nextId == s.nextId) && s'.nextId >= s.nextId
    ensures !NoIssues(outs) ==> |outs| == 1 && IsIssue(s'.pending, outs[0]) && outs[0].readId == s.nextId
  {
    if s'.nextId == s.nextId {
      forall id: nat ensures IssueIds(outs, id) == 0 {
        AnyStepConserves(c, s, input, outs, s', id);
      }
      NoIdsNoIssues(outs);
    } else {
      var addr, msg, applied := FreshIsMessage(c, s, input, outs, s');
      var k: nat :| Handled(c, s.(reg := applied), addr, msg, k, outs, s');
      FreshIsLone(c, s.(reg := applied), addr, msg, k, outs, s');
      assert outs[0] in outs;
    }
  }

  lemma {:induction false} NoIdsNoIssues(outs: seq<Output>)
    requires forall id: nat :: IssueIds(outs, id) == 0
    ensures NoIssues(outs)
  {
    if outs != [] {
      var init, last := outs[..|outs| - 1], outs[|outs| - 1];
      forall id: nat ensures IssueIds(init, id) == 0 {
        assert IssueIds(outs, id) == 0;
      }
      NoIdsNoIssues(init);
      assert IssueIds(outs, if last.ReadForUpload? then last.readId else 0) == 0;
    }
  }

  lemma FreshIsMessage(c: Config, s: State, input: Input, outs: seq<Output>, s': State)
      returns (addr: SocketAddr, msg: M.Message, reg: Registry)
    requires Inv(c, s) && Next(c, s, input, outs, s') && s'.nextId != s.nextId
    ensures Ready(c, s.(reg := reg)) && exists k: nat :: Handled(c, s.(reg := reg), addr, msg, k, outs, s')
  {
    hide Inv, Handled, Planned, OnPexTick, Cancels, Sends;
    if input == OnTick(BlockTick) {
      PlannedConserves(c, s, outs, s', 0);
    }
    assert input.MessageReceived?;
    addr, msg := input.addr, input.message;
    reg := ApplyMessage(s.reg, |c.metainfo.pieces|, addr, msg).value;
    SameReady(c, s, s.(reg := reg));
  }

  /** Peers are registered only by a step that also sends to them. */
  lemma StepReaches(c: Config, s: State, input: Input, outs: seq<Output>, s': State)
    requires Ready(c, s) && Next(c, s, input, outs, s')
    ensures forall a :: a in s'.reg.peers ==> a in s.reg.peers || Mentioned(outs, a)
  {
    hide Ready, OnConnected, OnMessage, Planned, OnPexTick, Cancels, Sends, Mentioned;
    match input
    case PeerConnected(id, direction, addr, ext) => ConnectionReaches(c, s, addr, direction, id, ext, outs, s');
    case MessageReceived(addr, msg) => MessageReaches(c, s, addr, msg, outs, s');
    case OnTick(BlockTick) => PlannedKeepsRegistry(c, s, outs, s');
    case _ =>
  }

  lemma ConnectionReaches(c: Config, s: State, addr: SocketAddr, direction: ConnectionDirection, id: PeerId,
                          ext: PeerExtensions, outs: seq<Output>, s': State)
    requires OnConnected(c, s, addr, direction, id, ext, outs, s')
    ensures forall a :: a in s'.reg.peers ==> a in s.reg.peers || Mentioned(outs, a)
  {
    hide Cancels, Judge, Announces;
    match Judge(c.clientId, s.reg, direction, id)
    case Reject =>
    case Accept => assert outs[0] in outs;
    case Replace(_) =>
      assert outs[|outs| - 2..][0] == outs[|outs| - 2];
      assert outs[|outs| - 2] in outs;
  }

  lemma MessageReaches(c: Config, s: State, addr: SocketAddr, msg: M.Message, outs: seq<Output>, s': State)
    requires Ready(c, s) && OnMessage(c, s, addr, msg, outs, s')
    ensures forall a :: a in s'.reg.peers ==> a in s.reg.peers
  {
    hide Handled, Ready;
    var applied := ApplyMessage(s.reg, |c.metainfo.pieces|, addr, msg);
    if applied.Ok? {
      var s1 := s.(reg := applied.value);
      SameReady(c, s, s1);
      var k: nat :| Handled(c, s1, addr, msg, k, outs, s');
      HandledKeepsRegistry(c, s1, addr, msg, k, outs, s');
    }
  }

  /**
   * What the shell does before an input reaches the swarm: a finished read's task and a lost peer's channel are
   * dropped.
   */
  function Prepared(sh: Shell, input: Input): Shell {
    match input
    case UploadReadCompleted(id, _, _) => sh.(handles := sh.handles - {id})
    case PeerDisconnected(addr) => sh.(cmds := sh.cmds - {addr})
    case _ => sh
  }

  /** A completed read comes from its task, with its range. */
  ghost predicate FromTask(sh: Shell, input: Input) {
    input.UploadReadCompleted? ==> input.readId in sh.handles && sh.handles[input.readId] == input.range
  }

  lemma StepBalancesReads(c: Config, sh: Shell, input: Input, outs: seq<Output>, s': State)
    requires BooksSettled(c, sh) && FromTask(sh, input) && Next(c, sh.s, input, outs, s')
    ensures ReadsBalance(Prepared(sh, input).handles, s'.pending, outs, [])
  {
    SettledBalances(c, sh);
    if input.UploadReadCompleted? {
      TaskIsConsumed(c, sh, input, outs, s');
    }
    forall id: nat ensures Has(Prepared(sh, input).handles, id) + IssueIds(outs, id) + IssueIds([], id)
      == Ids(s'.pending, id) + CancelIds(outs, id) + CancelIds([], id) {
      AnyStepConserves(c, sh.s, input, outs, s', id);
      hide *;
      Nothing(id);
      BalancedAt(c, sh, id);
      PreparedHas(sh, input, outs, id);
    }
  }

  lemma BalancedAt(c: Config, sh: Shell, id: nat)
    requires Balanced(c, sh, [], [])
    ensures Has(sh.handles, id) == Ids(sh.s.pending, id)
  {
    Nothing(id);
  }

  lemma PreparedHas(sh: Shell, input: Input, outs: seq<Output>, id: nat)
    requires FromTask(sh, input) && (input.UploadReadCompleted? ==> outs != [])
    ensures Has(Prepared(sh, input).handles, id) + ConsumeIds(input, outs, id) == Has(sh.handles, id)
  {
  }

  /** The books being settled, a completion from a task always finds its pending read. */
  lemma TaskIsConsumed(c: Config, sh: Shell, input: Input, outs: seq<Output>, s': State)
    requires BooksSettled(c, sh) && FromTask(sh, input) && input.UploadReadCompleted? && Next(c, sh.s, input, outs, s')
    ensures outs != []
  {
    hide Inv, OnReadCompleted;
    CompletionServes(c, sh.s, input.readId, input.range, input.data, outs, s');
  }

  lemma StepKeepsRanges(c: Config, sh: Shell, input: Input, outs: seq<Output>, s': State)
    requires BooksSettled(c, sh) && FromTask(sh, input) && Next(c, sh.s, input, outs, s')
    requires ReadsBalance(Prepared(sh, input).handles, s'.pending, outs, []) && LoneIssue(s'.pending, outs, [])
    ensures SameRanges(Prepared(sh, input).handles, s'.pending)
  {
    PendingKept(c, sh.s, input, outs, s');
    hide Inv, Next;
  }

  /** Pending reads keep their ids; a new one has the next number. */
  ghost predicate PendingFrom(s: State, s': State) {
    forall r :: r in s'.pending ==>
      (r in s.pending && s'.pending[r].readId == s.pending[r].readId) || s'.pending[r].readId == s.nextId
  }

  /** Pending reads keep the range they were issued for; a new one takes an unused id. */
  lemma PendingKept(c: Config, s: State, input: Input, outs: seq<Output>, s': State)
    requires Inv(c, s) && Next(c, s, input, outs, s')
    ensures PendingFrom(s, s')
  {
    hide Inv, OnConnected, OnMessage, Planned, OnPexTick, Cancels, Sends;
    match input
    case PeerConnected(id, direction, addr, ext) => ConnectionKeepsPending(c, s, addr, direction, id, ext, outs, s');
    case MessageReceived(addr, msg) => MessageKeepsPending(c, s, addr, msg, outs, s');
    case OnTick(BlockTick) => PlannedConserves(c, s, outs, s', 0);
    case _ =>
  }

  lemma ConnectionKeepsPending(c: Config, s: State, addr: SocketAddr, direction: ConnectionDirection, id: PeerId,
                               ext: PeerExtensions, outs: seq<Output>, s': State)
    requires OnConnected(c, s, addr, direction, id, ext, outs, s')
    ensures forall r :: r in s'.pending ==> r in s.pending && s'.pending[r].readId == s.pending[r].readId
  {
    hide Cancels, Judge, AcceptOutputs;
  }

  lemma HandlerKeepsPending(c: Config, s: State, addr: SocketAddr, msg: M.Message)
    requires Ready(c, s)
    ensures var s' := AfterMessage(c, s, addr, msg);
      forall r :: r in s'.pending ==>
        (r in s.pending && s'.pending[r].readId == s.pending[r].readId) || s'.pending[r].readId == s.nextId
  {
    hide Receipt, FateOf, Ready;
    if msg.Request? {
      FateFresh(c, s, msg.range);
    }
  }

  lemma MessageKeepsPending(c: Config, s: State, addr: SocketAddr, msg: M.Message, outs: seq<Output>, s': State)
    requires Ready(c, s) && OnMessage(c, s, addr, msg, outs, s')
    ensures PendingFrom(s, s')
  {
    hide Handled, Ready;
    var applied := ApplyMessage(s.reg, |c.metainfo.pieces|, addr, msg);
    if applied.Ok? {
      var s1 := s.(reg := applied.value);
      SameReady(c, s, s1);
      var k: nat :| Handled(c, s1, addr, msg, k, outs, s');
      HandlerKeepsPending(c, s1, addr, msg);
      HandledKeepsPending(c, s1, addr, msg, k, outs, s');
    }
  }

  lemma HandledKeepsPending(c: Config, s: State, addr: SocketAddr, msg: M.Message, k: nat, outs: seq<Output>, s': State)
    requires Ready(c, s) && Handled(c, s, addr, msg, k, outs, s')
    ensures s'.pending == AfterMessage(c, s, addr, msg).pending
  {
    hide AfterMessage, MessageOutputs, Planned, Ready;
    if msg.AffectsScheduling() {
      PlannedConserves(c, AfterMessage(c, s, addr, msg), outs[k..], s', 0);
    }
  }

  /** From settled books, one step leaves balanced books and its outputs to handle. */
  lemma StepBalances(c: Config, sh: Shell, input: Input, outs: seq<Output>, s': State)
    requires BooksSettled(c, sh) && FromTask(sh, input) && Next(c, sh.s, input, outs, s')
    ensures Balanced(c, Prepared(sh, input).(s := s'), outs, [])
  {
    hide Inv, Next, Ids, IssueIds, CancelIds;
    NextKeeps(c, sh.s, input, outs, s');
    StepIssues(c, sh.s, input, outs, s');
    StepReaches(c, sh.s, input, outs, s');
    StepBalancesReads(c, sh, input, outs, s');
    StepKeepsRanges(c, sh, input, outs, s');
    if input.PeerDisconnected? {
      LostPeerIsGone(c, sh.s, input, outs, s');
    }
  }

  lemma LostPeerIsGone(c: Config, s: State, input: Input, outs: seq<Output>, s': State)
    requires Ready(c, s) && input.PeerDisconnected? && Next(c, s, input, outs, s')
    ensures input.addr !in s'.reg.peers
  {
    hide Ready;
  }

  /** The outputs of a step wait their turn. */
  lemma Wait(c: Config, sh: Shell, outs: seq<Output>)
    requires Balanced(c, sh, outs, [])
    ensures Balanced(c, sh, [], outs)
  {
    hide Inv, Ids, IssueIds, CancelIds;
    forall id: nat ensures Has(sh.handles, id) + IssueIds([], id) + IssueIds(outs, id)
      == Ids(sh.s.pending, id) + CancelIds([], id) + CancelIds(outs, id) {
      assert Has(sh.handles, id) + IssueIds(outs, id) + IssueIds([], id)
        == Ids(sh.s.pending, id) + CancelIds(outs, id) + CancelIds([], id);
    }
  }

  /** The next output is taken up. */
  lemma TakeUp(c: Config, sh: Shell, outs: seq<Output>)
    requires outs != [] && Balanced(c, sh, [], outs)
    ensures Balanced(c, sh, [outs[0]], outs[1..])
  {
    hide Inv, Ids, IssueIds, CancelIds;
    assert outs == [outs[0]] + outs[1..];
    forall id: nat ensures Has(sh.handles, id) + IssueIds([outs[0]], id) + IssueIds(outs[1..], id)
      == Ids(sh.s.pending, id) + CancelIds([outs[0]], id) + CancelIds(outs[1..], id) {
      IdsAppend([outs[0]], outs[1..], id);
      Nothing(id);
      assert Has(sh.handles, id) + IssueIds([], id) + IssueIds(outs, id)
        == Ids(sh.s.pending, id) + CancelIds([], id) + CancelIds(outs, id);
    }
    forall a | a in sh.s.reg.peers && a !in sh.cmds ensures Mentioned([outs[0]], a) || Mentioned(outs[1..], a) {
      var o :| o in outs && (o.SendToPeer? || o.DisconnectPeer?) && o.addr == a;
      assert o in [outs[0]] || o in outs[1..];
    }
  }

  // ---- The store behind the command queue ----

  /**
   * What handling an output queues for the storage worker. `ReadForUpload` queues nothing: it starts a task, which
   * sends its command when it is first polled.
   */
  function Effect(m: Metainfo, o: Output): seq<Command> {
    match o
    case WritePiece(range, data) =>
      if |data| == range.len && StorageOffset(m, range).Some? then
        [Command.Write(StorageOffset(m, range).value, data)]
      else []
    case Completed => [Command.Flush]
    case _ => []
  }

  /** The queue changes the store as the outputs say. */
  lemma EffectStores(m: Metainfo, disk: bytes, queued: seq<Command>, o: Output)
    ensures Execute(disk, queued + Effect(m, o)).0 == StoreAfter(m, Execute(disk, queued).0, [o])
  {
    assert [o][..0] == [];
    var e := Effect(m, o);
    if e == [] {
      assert queued + e == queued;
    } else {
      assert (queued + e)[..|queued|] == queued;
    }
  }

  lemma StoreHead(m: Metainfo, store: bytes, outs: seq<Output>)
    requires outs != []
    ensures StoreAfter(m, store, outs) == StoreAfter(m, StoreAfter(m, store, [outs[0]]), outs[1..])
  {
    assert outs == [outs[0]] + outs[1..];
    StoreAppend(m, store, [outs[0]], outs[1..]);
  }

  /** Whether a write waits for the barrier. */
  function Unflushed(queued: seq<Command>): bool {
    queued != [] && match queued[|queued| - 1]
      case Write(_, _) => true
      case Flush => false
      case Read(_, _, _) => Unflushed(queued[..|queued| - 1])
  }

  /** Whether handling these outputs ends without a write waiting for the barrier. */
  function EndsFlushed(unflushed: bool, outs: seq<Output>): bool
    decreases |outs|
  {
    if outs == [] then !unflushed
    else EndsFlushed(if outs[0].WritePiece? then true else if outs[0].Completed? then false else unflushed, outs[1..])
  }

  lemma EffectFlushes(m: Metainfo, queued: seq<Command>, o: Output)
    ensures var e := Effect(m, o);
      !(o.WritePiece? && e == []) ==>
        Unflushed(queued + e) == if o.WritePiece? then true else if o.Completed? then false else Unflushed(queued)
  {
    var e := Effect(m, o);
    if e == [] {
      assert queued + e == queued;
    } else {
      assert (queued + e)[..|queued|] == queued;
    }
  }

  lemma {:induction false} QuietEndsFlushed(outs: seq<Output>)
    requires Quiet(outs)
    ensures EndsFlushed(false, outs)
  {
    if outs != [] {
      assert outs[0] in outs;
      QuietEndsFlushed(outs[1..]);
    }
  }

  /** The step that completes the torrent ends with the barrier; no later step writes. */
  lemma StepEndsFlushed(c: Config, s: State, input: Input, outs: seq<Output>, s': State)
    requires Ready(c, s) && Next(c, s, input, outs, s') && !input.LocalPiece? && AllComplete(s'.pieces)
    ensures AllComplete(s.pieces) ==> EndsFlushed(false, outs)
    ensures !AllComplete(s.pieces) ==> EndsFlushed(true, outs) && EndsFlushed(false, outs)
  {
    StepKinds(c, s, input, outs, s');
    hide Next, Ready, Quiet;
    if Idle(s, outs, s') {
      QuietEndsFlushed(outs);
      SameSetAllComplete(s.pieces, s'.pieces);
    } else {
      var i: nat, data: bytes, rest: seq<Output> :| Delivers(c, s, outs, s', i, data, rest);
      assert i !in CompleteSet(s.pieces);
      DeliveryEndsFlushed(outs, i, data, rest);
    }
  }

  lemma SameSetAllComplete(p: seq<PieceState>, q: seq<PieceState>)
    requires |p| == |q| && CompleteSet(p) == CompleteSet(q) && AllComplete(q)
    ensures AllComplete(p)
  {
    forall i | 0 <= i < |p| ensures p[i].Complete? {
      assert i in CompleteSet(q);
    }
  }

  lemma DeliveryEndsFlushed(outs: seq<Output>, i: nat, data: bytes, rest: seq<Output>)
    requires outs == [Broadcast(M.Have(i)), WritePiece(BlockRange(i, 0, |data|), data)] + Finish(true) + rest
    requires Quiet(rest)
    ensures forall unflushed :: EndsFlushed(unflushed, outs)
  {
    assert outs[1..][1..][1..] == rest;
    QuietEndsFlushed(rest);
    forall unflushed ensures EndsFlushed(unflushed, outs) {
      assert EndsFlushed(unflushed, outs) == EndsFlushed(unflushed, outs[1..]);
      assert EndsFlushed(unflushed, outs[1..]) == EndsFlushed(true, outs[1..][1..]);
      assert EndsFlushed(true, outs[1..][1..]) == EndsFlushed(false, rest);
    }
  }

  /** Everything that handling an output queues has an address. */
  lemma EffectAddressable(m: Metainfo, queued: seq<Command>, o: Output)
    requires Addressable(queued)
    ensures Addressable(queued + Effect(m, o))
  {
    hide TotalSize;
  }

  // ---- What the read tasks are answered ----

  /** Where in the queue a read task has put its command; a task that has not been polled has put none. */
  type Sent = map<nat, nat>

  /** The `k`-th command reads `r`, and what is stored there when its turn comes is what is stored now. */
  ghost predicate ReadsAt(m: Metainfo, disk: bytes, queued: seq<Command>, k: nat, r: BlockRange) {
    && k < |queued| && StorageOffset(m, r).Some?
    && queued[k] == Command.Read(StorageOffset(m, r).value, r.len, false)
    && Clip(Execute(disk, queued[..k]).0, StorageOffset(m, r).value, r.len)
         == Clip(Execute(disk, queued).0, StorageOffset(m, r).value, r.len)
  }

  /** Every task that has sent its command reads the range it was started for. */
  ghost predicate TasksOk(m: Metainfo, disk: bytes, queued: seq<Command>, handles: map<nat, BlockRange>, sent: Sent,
                          nextId: nat) {
    && (forall id :: id in handles && id in sent ==> ReadsAt(m, disk, queued, sent[id], handles[id]))
    && (forall id :: id in sent ==> id < nextId)
  }

  /** The worker's answer to such a task is the range as it is stored now. */
  lemma TaskIsAnswered(m: Metainfo, disk: bytes, queued: seq<Command>, k: nat, r: BlockRange)
    requires ReadsAt(m, disk, queued, k, r)
    ensures Execute(disk, queued).1[k]
        == Some(ReadReply(Clip(Execute(disk, queued).0, StorageOffset(m, r).value, r.len)))
  {
    AnswerAt(disk, queued, k);
    hide Execute, Clip, TotalSize;
  }

  /** Bytes of complete pieces being stable, every task stays right across a step and the handling of its outputs. */
  lemma TasksStay(c: Config, sh: Shell, input: Input, outs: seq<Output>, s': State, sh': Shell,
                  disk: bytes, queued: seq<Command>, queued': seq<Command>, sent: Sent)
    requires BooksSettled(c, sh) && BooksSettled(c, sh') && Next(c, sh.s, input, outs, s')
    requires sh'.s.nextId == s'.nextId && KeepsReads(s'.pending, sh'.s.pending)
    requires TasksOk(c.metainfo, disk, queued, sh.handles, sent, sh.s.nextId) && queued <= queued'
    requires |Execute(disk, queued).0| == TotalSize(c.metainfo)
    requires SameBytes(c.metainfo, Execute(disk, queued).0, Execute(disk, queued').0, CompleteSet(sh.s.pieces))
    ensures TasksOk(c.metainfo, disk, queued', sh'.handles, sent, sh'.s.nextId)
  {
    StepIssues(c, sh.s, input, outs, s');
    PendingKept(c, sh.s, input, outs, s');
    forall id | id in sh'.handles && id in sent ensures ReadsAt(c.metainfo, disk, queued', sent[id], sh'.handles[id]) {
      hide *;
      SentBefore(c.metainfo, disk, queued, sh.handles, sent, sh.s.nextId, id);
      OldHandle(c, sh, s', sh', id);
      OldTask(c, sh, disk, queued, queued', sent, id);
    }
    hide *;
    SentIds(c.metainfo, disk, queued, sh.handles, sent, sh.s.nextId);
    TasksAre(c.metainfo, disk, queued', sh'.handles, sent, sh'.s.nextId);
  }

  lemma SentBefore(m: Metainfo, disk: bytes, queued: seq<Command>, handles: map<nat, BlockRange>, sent: Sent,
                   nextId: nat, id: nat)
    requires TasksOk(m, disk, queued, handles, sent, nextId) && id in sent
    ensures id < nextId && (id in handles ==> ReadsAt(m, disk, queued, sent[id], handles[id]))
  {
  }

  lemma SentIds(m: Metainfo, disk: bytes, queued: seq<Command>, handles: map<nat, BlockRange>, sent: Sent, nextId: nat)
    requires TasksOk(m, disk, queued, handles, sent, nextId)
    ensures forall id :: id in sent ==> id < nextId
  {
  }

  lemma TasksAre(m: Metainfo, disk: bytes, queued: seq<Command>, handles: map<nat, BlockRange>, sent: Sent, nextId: nat)
    requires forall id :: id in handles && id in sent ==> ReadsAt(m, disk, queued, sent[id], handles[id])
    requires forall id :: id in sent ==> id < nextId
    ensures TasksOk(m, disk, queued, handles, sent, nextId)
  {
  }

  lemma OldTask(c: Config, sh: Shell, disk: bytes, queued: seq<Command>, queued': seq<Command>, sent: Sent, id: nat)
    requires BooksSettled(c, sh) && id in sh.handles && id in sent && queued <= queued'
    requires ReadsAt(c.metainfo, disk, queued, sent[id], sh.handles[id])
    requires |Execute(disk, queued).0| == TotalSize(c.metainfo)
    requires SameBytes(c.metainfo, Execute(disk, queued).0, Execute(disk, queued').0, CompleteSet(sh.s.pieces))
    ensures ReadsAt(c.metainfo, disk, queued', sent[id], sh.handles[id])
  {
    hide Inv, SameBytes, StorageOffset, Clip, Execute, TotalSize;
    SameRead(c, sh.s, Execute(disk, queued).0, Execute(disk, queued').0, sh.handles[id]);
    assert queued'[..sent[id]] == queued[..sent[id]];
  }

  /** Reads only leave the table while outputs are handled. */
  ghost predicate KeepsReads(before: Reads, after: Reads) {
    forall r :: r in after ==> r in before && before[r].readId == after[r].readId
  }

  lemma OldHandle(c: Config, sh: Shell, s': State, sh': Shell, id: nat)
    requires BooksSettled(c, sh) && BooksSettled(c, sh') && id in sh'.handles && id != sh.s.nextId
    requires KeepsReads(s'.pending, sh'.s.pending) && PendingFrom(sh.s, s')
    ensures id in sh.handles && sh.handles[id] == sh'.handles[id] && sh.handles[id] in sh.s.pending
  {
    hide Inv;
  }

  lemma SettledInv(c: Config, sh: Shell)
    requires BooksSettled(c, sh)
    ensures Inv(c, sh.s) && Ready(c, sh.s)
  {
  }

  lemma PendingHasAddress(c: Config, s: State, r: BlockRange)
    requires Inv(c, s) && r in s.pending
    ensures StorageOffset(c.metainfo, r).Some? && r.pieceIndex in CompleteSet(s.pieces)
    ensures s.pending[r].readId < s.nextId
  {
    assert ReadOk(c.metainfo, s.pieces, s.reg.peers.Keys, s.nextId, r, s.pending[r]);
    hide RegistryOk, InFlightOk, PiecesOk, StorageOffset;
    StorageOffsetIff(c.metainfo, r);
  }

  /** A pending read lies in a complete piece, whose bytes did not change. */
  lemma SameRead(c: Config, s: State, store: bytes, store': bytes, r: BlockRange)
    requires Inv(c, s) && r in s.pending && |store| == TotalSize(c.metainfo)
    requires SameBytes(c.metainfo, store, store', CompleteSet(s.pieces))
    ensures StorageOffset(c.metainfo, r).Some?
    ensures Clip(store', StorageOffset(c.metainfo, r).value, r.len)
        == Clip(store, StorageOffset(c.metainfo, r).value, r.len)
  {
    PendingHasAddress(c, s, r);
    hide Inv, StorageOffset, Clip, PieceBytes;
    ReadIsPartOfPiece(c.metainfo, store, r);
    ReadIsPartOfPiece(c.metainfo, store', r);
  }

  // ---- A task is polled for the first time ----

  /** A read changes nothing in the store, and the barrier is where it was. */
  lemma ReadStores(disk: bytes, queued: seq<Command>, cmd: Command)
    requires cmd.Read?
    ensures Execute(disk, queued + [cmd]).0 == Execute(disk, queued).0
    ensures Unflushed(queued + [cmd]) == Unflushed(queued)
  {
    assert (queued + [cmd])[..|queued|] == queued;
  }

  /** Whenever it happens, the command a task sends reads what is stored then, and no other task is affected. */
  lemma TaskStarts(c: Config, s: State, disk: bytes, queued: seq<Command>, handles: map<nat, BlockRange>, sent: Sent,
                   id: nat)
    requires TasksOk(c.metainfo, disk, queued, handles, sent, s.nextId) && id in handles && id !in sent && id < s.nextId
    requires StorageOffset(c.metainfo, handles[id]).Some?
    ensures var cmd := Command.Read(StorageOffset(c.metainfo, handles[id]).value, handles[id].len, false);
      TasksOk(c.metainfo, disk, queued + [cmd], handles, sent[id := |queued|], s.nextId)
  {
    var m, cmd := c.metainfo, Command.Read(StorageOffset(c.metainfo, handles[id]).value, handles[id].len, false);
    var queued' := queued + [cmd];
    ReadStores(disk, queued, cmd);
    hide StorageOffset, Clip, Execute, Unflushed;
    forall x | x in handles && x in sent[id := |queued|]
      ensures ReadsAt(m, disk, queued', sent[id := |queued|][x], handles[x]) {
      var k := sent[id := |queued|][x];
      if x == id {
        assert queued'[..k] == queued;
      } else {
        assert ReadsAt(m, disk, queued, k, handles[x]);
        assert queued'[..k] == queued[..k];
      }
    }
  }
}
