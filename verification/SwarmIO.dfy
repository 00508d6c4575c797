/** The event loop's shell around the swarm (adapters/swarm_io.rs). */
module SwarmIOs {
  import opened Wrappers
  import opened Bytes
  import opened Listings
  import opened Peers
  import opened Torrents
  import opened PieceManagers
  import opened SwarmEvents
  import opened SwarmSpec
  import opened SwarmInvariants
  import opened StoreRuns
  import opened DiskStorages
  import opened SwarmShell
  import opened Swarms
  import Registries
  import Runs
  import M = Messages

  datatype Snapshot = Snapshot(bytesTotal: nat, bytesAvailable: int)

  // ---- Termination of the worklist ----

  function Broadcasting(stack: seq<Output>): nat {
    if stack == [] then 0 else Broadcasting(stack[..|stack| - 1]) + if stack[|stack| - 1].Broadcast? then 1 else 0
  }

  /** A failed send turns into a disconnection, a disconnection into cancellations of pending reads. */
  function Weight(stack: seq<Output>): nat {
    if stack == [] then 0 else Weight(stack[..|stack| - 1]) + if stack[|stack| - 1].SendToPeer? then 2 else 1
  }

  lemma {:induction false} WeightAppend(xs: seq<Output>, ys: seq<Output>)
    ensures Weight(xs + ys) == Weight(xs) + Weight(ys) && Broadcasting(xs + ys) == Broadcasting(xs) + Broadcasting(ys)
  {
    if ys == [] {
      assert xs + ys == xs;
    } else {
      assert (xs + ys)[..|xs + ys| - 1] == xs + ys[..|ys| - 1];
      WeightAppend(xs, ys[..|ys| - 1]);
    }
  }

  lemma {:induction false} CancelsWeigh(outs: seq<Output>)
    requires forall o :: o in outs ==> o.CancelUploadRead?
    ensures Weight(outs) == |outs| && Broadcasting(outs) == 0
  {
    if outs != [] {
      assert outs[|outs| - 1] in outs;
      CancelsWeigh(outs[..|outs| - 1]);
    }
  }

  lemma OneWeighs(o: Output)
    ensures Weight([o]) == (if o.SendToPeer? then 2 else 1) && Broadcasting([o]) == if o.Broadcast? then 1 else 0
  {
    assert [o][..0] == [];
  }

  /** Outputs that only nested steps and failed sends put on the stack. */
  ghost predicate Nested(stack: seq<Output>) {
    forall o :: o in stack ==> o.DisconnectPeer? || o.CancelUploadRead?
  }

  // ---- One turn of the worklist ----

  /** The shell, its storage queue and where the read tasks have put their commands. */
  datatype World = World(sh: Shell, queued: seq<Command>, sent: Sent)

  /** The top of the stack is replaced by nested outputs of less weight. */
  ghost predicate Shrinks(stack: seq<Output>, stack': seq<Output>, pending: nat, pending': nat) {
    && stack != [] && |stack| - 1 <= |stack'|
    && stack'[..|stack| - 1] == stack[..|stack| - 1] && Nested(stack'[|stack| - 1..])
    && (Broadcasting(stack') < Broadcasting(stack)
        || (Broadcasting(stack') == Broadcasting(stack) && Weight(stack') + pending' < Weight(stack) + pending))
  }

  /** The effect of one output on the storage queue; pieces stay, reads only leave, and no task is polled meanwhile. */
  ghost predicate Effects(m: Metainfo, w0: World, o: Output, w: World) {
    && w.sh.s.pieces == w0.sh.s.pieces && w.sh.s.nextId == w0.sh.s.nextId && KeepsReads(w0.sh.s.pending, w.sh.s.pending)
    && w.queued == w0.queued + Effect(m, o) && (o.WritePiece? ==> Effect(m, o) != [])
    && w.sent == w0.sent
  }

  /** What one turn of the worklist does: the top output takes effect and the books stay balanced. */
  ghost predicate Turn(c: Config, w0: World, stack0: seq<Output>, w: World, stack: seq<Output>, rest: seq<Output>) {
    && stack0 != [] && Balanced(c, w.sh, stack, rest)
    && Shrinks(stack0, stack, |w0.sh.s.pending|, |w.sh.s.pending|)
    && Effects(c.metainfo, w0, stack0[|stack0| - 1], w)
  }

  lemma StackTop(stack: seq<Output>)
    requires stack != []
    ensures var o := stack[|stack| - 1]; var init := stack[..|stack| - 1];
      && Weight(stack) == Weight(init) + (if o.SendToPeer? then 2 else 1)
      && Broadcasting(stack) == Broadcasting(init) + if o.Broadcast? then 1 else 0
  {
  }

  lemma DropShrinks(stack: seq<Output>, outs: seq<Output>, pending: nat, pending': nat)
    requires stack != [] && !stack[|stack| - 1].Broadcast? && !stack[|stack| - 1].SendToPeer?
    requires (forall o :: o in outs ==> o.CancelUploadRead?) && pending' + |outs| == pending
    ensures Shrinks(stack, stack[..|stack| - 1] + Reversed(outs), pending, pending')
  {
    var init := stack[..|stack| - 1];
    StackTop(stack);
    hide Weight, Broadcasting;
    CancelsWeigh(Reversed(outs));
    WeightAppend(init, Reversed(outs));
    assert (init + Reversed(outs))[..|stack| - 1] == init && (init + Reversed(outs))[|stack| - 1..] == Reversed(outs);
  }

  lemma PopShrinks(stack: seq<Output>, pending: nat)
    requires stack != []
    ensures Shrinks(stack, stack[..|stack| - 1], pending, pending)
  {
    StackTop(stack);
    var init := stack[..|stack| - 1];
    assert init[..|stack| - 1] == init && init[|stack| - 1..] == [];
  }

  lemma FailShrinks(stack: seq<Output>, pending: nat)
    requires stack != [] && stack[|stack| - 1].SendToPeer?
    ensures Shrinks(stack, stack[..|stack| - 1] + [DisconnectPeer(stack[|stack| - 1].addr)], pending, pending)
  {
    var init, gone := stack[..|stack| - 1], [DisconnectPeer(stack[|stack| - 1].addr)];
    StackTop(stack);
    hide Weight, Broadcasting;
    OneWeighs(gone[0]);
    WeightAppend(init, gone);
    assert (init + gone)[..|stack| - 1] == init && (init + gone)[|stack| - 1..] == gone;
  }

  lemma BroadcastShrinks(stack: seq<Output>, more: seq<Output>, pending: nat)
    requires stack != [] && stack[|stack| - 1].Broadcast? && forall o :: o in more ==> o.DisconnectPeer?
    ensures Shrinks(stack, stack[..|stack| - 1] + more, pending, pending)
  {
    var init := stack[..|stack| - 1];
    StackTop(stack);
    NoBroadcasts(more);
    WeightAppend(init, more);
    assert (init + more)[..|stack| - 1] == init && (init + more)[|stack| - 1..] == more;
  }

  lemma {:induction false} NoBroadcasts(outs: seq<Output>)
    requires forall o :: o in outs ==> o.DisconnectPeer?
    ensures Broadcasting(outs) == 0
  {
    if outs != [] {
      assert outs[|outs| - 1] in outs;
      NoBroadcasts(outs[..|outs| - 1]);
    }
  }

  lemma {:induction false} PushDisconnects(c: Config, sh: Shell, stack: seq<Output>, rest: seq<Output>,
                                           more: seq<Output>)
    requires Balanced(c, sh, stack, rest) && NoIssues(stack) && NoIssues(rest)
    requires forall o :: o in more ==> o.DisconnectPeer?
    ensures Balanced(c, sh, stack + more, rest)
  {
    if more == [] {
      assert stack + more == stack;
    } else {
      var init, last := more[..|more| - 1], more[|more| - 1];
      assert last in more;
      assert stack + more == stack + init + [last];
      hide Balanced;
      PushDisconnects(c, sh, stack, rest, init);
      PushDisconnect(c, sh, stack + init, rest, last.addr);
    }
  }

  lemma TopIsNoIssue(c: Config, sh: Shell, stack: seq<Output>, rest: seq<Output>)
    requires Balanced(c, sh, stack, rest) && stack != [] && !stack[|stack| - 1].ReadForUpload?
    ensures NoIssues(stack[..|stack| - 1]) && NoIssues(rest)
  {
    hide Inv;
    assert stack[|stack| - 1] in stack;
  }

  lemma IssueIsAlone(c: Config, sh: Shell, stack: seq<Output>, rest: seq<Output>)
    requires Balanced(c, sh, stack, rest) && stack != [] && stack[|stack| - 1].ReadForUpload?
    ensures stack == [stack[|stack| - 1]] && rest == []
  {
    hide Inv;
    assert stack[|stack| - 1] in stack;
  }

  /** Only writes and completion reach the storage queue. */
  lemma PlainEffects(m: Metainfo, w0: World, o: Output, w: World)
    requires !(o.WritePiece? || o.Completed?) && w.queued == w0.queued && w.sent == w0.sent
    requires w.sh.s.pieces == w0.sh.s.pieces && w.sh.s.nextId == w0.sh.s.nextId
    requires KeepsReads(w0.sh.s.pending, w.sh.s.pending)
    ensures Effects(m, w0, o, w)
  {
  }

  lemma TurnIs(c: Config, w0: World, stack0: seq<Output>, w: World, stack: seq<Output>, rest: seq<Output>)
    requires stack0 != [] && w.sh.s == w0.sh.s && w.queued == w0.queued && w.sent == w0.sent
    requires Balanced(c, w.sh, stack, rest)
    requires Shrinks(stack0, stack, |w0.sh.s.pending|, |w.sh.s.pending|)
    requires var o := stack0[|stack0| - 1]; !(o.WritePiece? || o.ReadForUpload? || o.Completed?)
    ensures Turn(c, w0, stack0, w, stack, rest)
  {
    hide Balanced, Shrinks;
    PlainEffects(c.metainfo, w0, stack0[|stack0| - 1], w);
  }

  lemma DropTurn(c: Config, w: World, stack: seq<Output>, rest: seq<Output>, outs: seq<Output>, s': State)
    requires stack != [] && stack[|stack| - 1].DisconnectPeer? && Balanced(c, w.sh, stack, rest)
    requires OnDisconnected(w.sh.s, stack[|stack| - 1].addr, outs, s')
    ensures var sh' := Shell(s', w.sh.cmds - {stack[|stack| - 1].addr}, w.sh.handles);
      Turn(c, w, stack, w.(sh := sh'), stack[..|stack| - 1] + Reversed(outs), rest)
  {
    GoneKeepsReads(w.sh.s, stack[|stack| - 1].addr);
    PopDisconnect(c, w.sh, stack, rest, outs, s');
    assert s' == AfterGone(w.sh.s, stack[|stack| - 1].addr);
    hide Balanced, Shrinks, OnDisconnected, AfterGone;
    DropShrinks(stack, outs, |w.sh.s.pending|, |s'.pending|);
    PlainEffects(c.metainfo, w, stack[|stack| - 1],
                 w.(sh := Shell(s', w.sh.cmds - {stack[|stack| - 1].addr}, w.sh.handles)));
  }

  lemma GoneKeepsReads(s: State, addr: SocketAddr)
    ensures KeepsReads(s.pending, AfterGone(s, addr).pending) && AfterGone(s, addr).nextId == s.nextId
  {
  }

  /** An output that reaches the storage worker takes its effect. */
  lemma StorageTurn(c: Config, w0: World, stack0: seq<Output>, w: World, rest: seq<Output>)
    requires stack0 != [] && w.sh.s == w0.sh.s && Balanced(c, w.sh, stack0[..|stack0| - 1], rest)
    requires w.sent == w0.sent
    requires var o := stack0[|stack0| - 1];
      w.queued == w0.queued + Effect(c.metainfo, o) && (o.WritePiece? ==> Effect(c.metainfo, o) != [])
    ensures Turn(c, w0, stack0, w, stack0[..|stack0| - 1], rest)
  {
    PopShrinks(stack0, |w.sh.s.pending|);
    hide Balanced, Shrinks, Effect;
  }

  // ---- A whole output ----

  /** An output has taken effect, and only nested outputs are left on the stack. */
  ghost predicate TookEffect(c: Config, w0: World, out: Output, w: World, stack: seq<Output>, rest: seq<Output>) {
    Balanced(c, w.sh, stack, rest) && Nested(stack) && Effects(c.metainfo, w0, out, w)
  }

  lemma EffectBalanced(c: Config, w0: World, out: Output, w: World, stack: seq<Output>, rest: seq<Output>)
    requires TookEffect(c, w0, out, w, stack, rest)
    ensures Balanced(c, w.sh, stack, rest)
  {
  }

  lemma TurnStarts(c: Config, w0: World, out: Output, w: World, stack: seq<Output>, rest: seq<Output>)
    requires Turn(c, w0, [out], w, stack, rest)
    ensures TookEffect(c, w0, out, w, stack, rest)
  {
    hide Balanced, Effects, Nested;
    assert Nested(stack[0..]) && stack[0..] == stack;
  }

  lemma NestedEffects(m: Metainfo, w0: World, out: Output, w: World, o: Output, w': World)
    requires Effects(m, w0, out, w) && Effects(m, w, o, w') && (o.DisconnectPeer? || o.CancelUploadRead?)
    ensures Effects(m, w0, out, w')
  {
    assert Effect(m, o) == [] && w.queued + [] == w.queued;
    hide Effect;
  }

  lemma TurnContinues(c: Config, w0: World, out: Output, w: World, stack: seq<Output>,
                      w': World, stack': seq<Output>, rest: seq<Output>)
    requires stack != [] && TookEffect(c, w0, out, w, stack, rest) && Turn(c, w, stack, w', stack', rest)
    ensures TookEffect(c, w0, out, w', stack', rest)
  {
    hide Balanced, Effects;
    var n := |stack| - 1;
    assert stack[n] in stack;
    NestedEffects(c.metainfo, w0, out, w, stack[n], w');
    forall x | x in stack' ensures x.DisconnectPeer? || x.CancelUploadRead? {
      assert stack' == stack'[..n] + stack'[n..];
      assert x in stack'[..n] || x in stack'[n..];
      assert stack'[..n] == stack[..n];
    }
  }

  lemma TurnShrinks(c: Config, w0: World, stack0: seq<Output>, w: World, stack: seq<Output>, rest: seq<Output>)
    requires Turn(c, w0, stack0, w, stack, rest)
    ensures Broadcasting(stack) < Broadcasting(stack0)
      || (&& Broadcasting(stack) == Broadcasting(stack0)
          && Weight(stack) + |w.sh.s.pending| < Weight(stack0) + |w0.sh.s.pending|)
  {
    hide Balanced, Effects, Broadcasting, Weight;
  }

  // ---- All outputs of a step ----

  /** After `i` of the outputs the rest still waits, and will bring the store and the barrier where `outs` does. */
  ghost predicate Midway(c: Config, disk: bytes, w0: World, outs: seq<Output>, i: nat, w: World)
    requires i <= |outs|
  {
    var m := c.metainfo;
    && Balanced(c, w.sh, [], outs[i..])
    && w.sh.s.pieces == w0.sh.s.pieces && w.sh.s.nextId == w0.sh.s.nextId && KeepsReads(w0.sh.s.pending, w.sh.s.pending)
    && StoreAfter(m, Execute(disk, w.queued).0, outs[i..]) == StoreAfter(m, Execute(disk, w0.queued).0, outs)
    && w.sent == w0.sent && w0.queued <= w.queued && (Addressable(w0.queued) ==> Addressable(w.queued))
    && EndsFlushed(Unflushed(w.queued), outs[i..]) == EndsFlushed(Unflushed(w0.queued), outs)
  }

  lemma MidwayStarts(c: Config, disk: bytes, w: World, outs: seq<Output>)
    requires Balanced(c, w.sh, [], outs)
    ensures Midway(c, disk, w, outs, 0, w)
  {
    hide Balanced;
    assert outs[0..] == outs;
  }

  lemma MidwayWaits(c: Config, disk: bytes, w0: World, outs: seq<Output>, i: nat, w: World)
    requires i < |outs| && Midway(c, disk, w0, outs, i, w)
    ensures Balanced(c, w.sh, [outs[i]], outs[i + 1..])
  {
    hide Balanced;
    assert outs[i..][0] == outs[i] && outs[i..][1..] == outs[i + 1..];
    TakeUp(c, w.sh, outs[i..]);
  }

  lemma MidwayAdvances(c: Config, disk: bytes, w0: World, outs: seq<Output>, i: nat, w: World, w': World)
    requires i < |outs| && Midway(c, disk, w0, outs, i, w) && TookEffect(c, w, outs[i], w', [], outs[i + 1..])
    ensures Midway(c, disk, w0, outs, i + 1, w')
  {
    var m, o := c.metainfo, outs[i];
    assert outs[i..][0] == o && outs[i..][1..] == outs[i + 1..];
    EffectStores(m, disk, w.queued, o);
    StoreHead(m, Execute(disk, w.queued).0, outs[i..]);
    EffectFlushes(m, w.queued, o);
    if Addressable(w.queued) {
      EffectAddressable(m, w.queued, o);
    }
    hide Balanced, Effect, StoreAfter, Unflushed, Addressable;
  }

  /** Everything has been handled. */
  ghost predicate AllHandled(c: Config, disk: bytes, w0: World, outs: seq<Output>, w: World) {
    var m := c.metainfo;
    && BooksSettled(c, w.sh)
    && w.sh.s.pieces == w0.sh.s.pieces && w.sh.s.nextId == w0.sh.s.nextId && KeepsReads(w0.sh.s.pending, w.sh.s.pending)
    && Execute(disk, w.queued).0 == StoreAfter(m, Execute(disk, w0.queued).0, outs)
    && w.sent == w0.sent && w0.queued <= w.queued && (Addressable(w0.queued) ==> Addressable(w.queued))
    && !Unflushed(w.queued) == EndsFlushed(Unflushed(w0.queued), outs)
  }

  lemma MidwayEnds(c: Config, disk: bytes, w0: World, outs: seq<Output>, w: World)
    requires Midway(c, disk, w0, outs, |outs|, w)
    ensures AllHandled(c, disk, w0, outs, w)
  {
    assert outs[|outs|..] == [];
    BalancedSettles(c, w.sh);
    hide Balanced, BooksSettled;
  }

  // ---- The head of the event loop ----

  /**
   * Whenever the loop waits: one task per pending read and a channel per registered peer, complete pieces
   * stored with their hashes, every command with an address and every task's command in its place, and a complete
   * torrent with nothing left to flush.
   */
  ghost predicate LoopHead(c: Config, disk: bytes, w: World) {
    && BooksSettled(c, w.sh) && Ready(c, w.sh.s)
    && Verified(c, w.sh.s, Execute(disk, w.queued).0) && Addressable(w.queued)
    && TasksOk(c.metainfo, disk, w.queued, w.sh.handles, w.sent, w.sh.s.nextId)
    && (AllComplete(w.sh.s.pieces) ==> !Unflushed(w.queued))
  }

  /** A completed read is the worker's answer to the command its task has sent. */
  ghost predicate IsAnswer(disk: bytes, w: World, input: Input)
    requires input.UploadReadCompleted?
  {
    && input.readId in w.sent && w.sent[input.readId] < |w.queued|
    && Execute(disk, w.queued).1[w.sent[input.readId]] == Some(ReadReply(input.data))
  }

  /** What the loop feeds the swarm: anything but restored pieces; a completed read comes from its task. */
  ghost predicate LoopInput(disk: bytes, w: World, input: Input) {
    && !input.LocalPiece? && FromTask(w.sh, input)
    && (input.UploadReadCompleted? ==> IsAnswer(disk, w, input))
  }

  lemma LoopInputFromStore(c: Config, disk: bytes, w: World, input: Input)
    requires LoopHead(c, disk, w) && LoopInput(disk, w, input)
    ensures FromStore(c, w.sh.s, Execute(disk, w.queued).0, input)
  {
    hide BooksSettled, Verified, StorageOffset, Clip, Execute, ReadsAt;
    if input.UploadReadCompleted? {
      var k := w.sent[input.readId];
      assert ReadsAt(c.metainfo, disk, w.queued, k, w.sh.handles[input.readId]);
      TaskIsAnswered(c.metainfo, disk, w.queued, k, w.sh.handles[input.readId]);
      ReadHasAddress(c.metainfo, disk, w.queued, k, w.sh.handles[input.readId]);
    }
  }

  lemma ReadHasAddress(m: Metainfo, disk: bytes, queued: seq<Command>, k: nat, r: BlockRange)
    requires ReadsAt(m, disk, queued, k, r)
    ensures StorageOffset(m, r).Some?
  {
  }

  /** A step, and the handling of all its outputs, lead from one loop head to the next. */
  lemma LoopHeadKept(c: Config, disk: bytes, w: World, input: Input, outs: seq<Output>, s': State, w': World)
    requires LoopHead(c, disk, w) && LoopInput(disk, w, input) && Next(c, w.sh.s, input, outs, s')
    requires AllHandled(c, disk, World(Prepared(w.sh, input).(s := s'), w.queued, w.sent), outs, w')
    ensures LoopHead(c, disk, w')
  {
    var store := Execute(disk, w.queued).0;
    LoopInputFromStore(c, disk, w, input);
    SettledInv(c, w.sh);
    SettledInv(c, w'.sh);
    NextKeeps(c, w.sh.s, input, outs, s');
    InvReady(c, s');
    hide Inv, Ready, Next, FromStore, Verified, TasksOk, BooksSettled, SameBytes, StoreAfter, Execute, KeepsReads,
      Addressable;
    StepVerified(c, w.sh.s, input, outs, s', store);
    SamePiecesVerified(c, s', w'.sh.s, StoreAfter(c.metainfo, store, outs));
    VerifiedSize(c, w.sh.s, store);
    TasksStay(c, w.sh, input, outs, s', w'.sh, disk, w.queued, w'.queued, w.sent);
    if AllComplete(s'.pieces) {
      StepEndsFlushed(c, w.sh.s, input, outs, s');
    }
  }

  lemma InvReady(c: Config, s: State)
    requires Inv(c, s)
    ensures Ready(c, s)
  {
  }

  lemma VerifiedSize(c: Config, s: State, store: bytes)
    requires Ready(c, s) && Verified(c, s, store)
    ensures |store| == TotalSize(c.metainfo)
  {
  }

  lemma SamePiecesVerified(c: Config, s: State, s': State, store: bytes)
    requires Ready(c, s) && Ready(c, s') && s'.pieces == s.pieces && Verified(c, s, store)
    ensures Verified(c, s', store)
  {
  }

  // ---- Restoring ----

  ghost predicate OnlyReads(queued: seq<Command>) {
    forall k :: 0 <= k < |queued| ==> queued[k].Read?
  }

  lemma {:induction false} ReadsKeepStore(disk: bytes, queued: seq<Command>)
    requires OnlyReads(queued)
    ensures Execute(disk, queued).0 == disk && !Unflushed(queued)
  {
    if queued != [] {
      ReadsKeepStore(disk, queued[..|queued| - 1]);
    }
  }

  /**
   * The first `i` pieces have been offered: those whose stored bytes hash correctly are complete, the others
   * untouched or emptied.
   */
  ghost predicate RestoredUpTo(c: Config, disk: bytes, init: State, s: State, i: nat) {
    && Inv(c, s) && s == init.(pieces := s.pieces) && i <= |s.pieces|
    && (forall j :: 0 <= j < i ==>
          (s.pieces[j].Complete? <==> c.sha(PieceBytes(c.metainfo, disk, j)) == c.metainfo.pieces[j]))
    && (forall j :: i <= j < |s.pieces| ==> s.pieces[j] == NewPieceOf(c.metainfo, j))
  }

  lemma RestoreStarts(c: Config, disk: bytes, init: State)
    requires IsInit(c, init)
    ensures RestoredUpTo(c, disk, init, init, 0) && |init.pieces| == |c.metainfo.pieces|
  {
    InitInv(c, init);
    hide Inv, PieceBytes;
  }

  lemma RestoreOne(c: Config, disk: bytes, init: State, s: State, i: nat)
    requires RestoredUpTo(c, disk, init, s, i) && i < |s.pieces| && |disk| == TotalSize(c.metainfo)
    ensures RestoredUpTo(c, disk, init, AfterLocal(c, s, i, PieceBytes(c.metainfo, disk, i)), i + 1)
    ensures |AfterLocal(c, s, i, PieceBytes(c.metainfo, disk, i)).pieces| == |s.pieces|
  {
    var data := PieceBytes(c.metainfo, disk, i);
    LocalKeeps(c, s, i, data);
    PieceBytesLength(c.metainfo, disk, i);
    assert data[..|data|] == data;
    UnreceivedAreMissing(c.metainfo, s.pieces, i);
    RestoreIsExact(c.sha, c.metainfo, s.pieces, i, data);
    hide FillLocal, UnreceivedBlocks, PiecesOk, Inv, PieceBytes;
    FillLocalFrame(c.sha, c.metainfo, s.pieces, UnreceivedBlocks(c.metainfo, s.pieces, i), data, i);
  }

  /** What `restore` reads for a piece is the whole piece. */
  lemma RestoreRange(m: Metainfo, i: nat, remaining: nat)
    requires Coherent(m) && i < |m.pieces| && remaining == TotalSize(m) - PieceStart(m, i)
    ensures (if remaining < m.pieceLength then remaining else m.pieceLength) == PieceLen(m, i)
    ensures StorageOffset(m, BlockRange(i, 0, PieceLen(m, i))) == Some(PieceStart(m, i))
    ensures i + 1 < |m.pieces| ==> remaining - PieceLen(m, i) == TotalSize(m) - PieceStart(m, i + 1)
    ensures remaining >= PieceLen(m, i)
  {
    PieceInterval(m, i);
    StorageOffsetIff(m, BlockRange(i, 0, PieceLen(m, i)));
    if i < |m.pieces| - 1 {
      PieceInterval(m, |m.pieces| - 1);
      PiecesDisjoint(m, i, |m.pieces| - 1);
    }
  }

  lemma RestoreEnds(c: Config, disk: bytes, init: State, w: World)
    requires IsInit(c, init) && RestoredUpTo(c, disk, init, w.sh.s, |c.metainfo.pieces|)
    requires |disk| == TotalSize(c.metainfo)
    requires OnlyReads(w.queued) && w.sh.handles == map[] && w.sent == map[]
    ensures LoopHead(c, disk, w)
  {
    ReadsKeepStore(disk, w.queued);
    InvReady(c, w.sh.s);
    hide Inv, PieceBytes, Execute, Unflushed;
  }

  lemma InitCoherent(c: Config, init: State)
    requires IsInit(c, init)
    ensures Coherent(c.metainfo)
  {
  }

  lemma StartsAtZero(m: Metainfo)
    ensures PieceStart(m, 0) == 0
  {
  }

  lemma NoReadsYet()
    ensures OnlyReads([])
  {
  }

  lemma PieceIsClip(m: Metainfo, disk: bytes, i: nat)
    requires Coherent(m) && i < |m.pieces|
    ensures PieceBytes(m, disk, i) == Clip(disk, PieceStart(m, i), PieceLen(m, i))
  {
  }

  /** Exactly the pieces whose stored bytes have the expected hash are complete. */
  ghost predicate Restored(c: Config, disk: bytes, s: State) {
    && Coherent(c.metainfo) && |s.pieces| == |c.metainfo.pieces|
    && forall j :: 0 <= j < |s.pieces| ==>
      (s.pieces[j].Complete? <==> c.sha(PieceBytes(c.metainfo, disk, j)) == c.metainfo.pieces[j])
  }

  lemma RestoredAll(c: Config, disk: bytes, init: State, s: State)
    requires Coherent(c.metainfo) && RestoredUpTo(c, disk, init, s, |c.metainfo.pieces|)
    requires |s.pieces| == |c.metainfo.pieces|
    ensures Restored(c, disk, s)
  {
    hide Inv, PieceBytes;
  }

  lemma NextIsLocal(c: Config, s: State, i: nat, data: bytes, outs: seq<Output>, s': State)
    requires Ready(c, s) && Next(c, s, LocalPiece(i, data), outs, s')
    ensures s' == AfterLocal(c, s, i, data) && outs == []
  {
  }

  lemma NextIsDisconnected(c: Config, s: State, addr: SocketAddr, outs: seq<Output>, s': State)
    requires Ready(c, s) && Next(c, s, PeerDisconnected(addr), outs, s')
    ensures OnDisconnected(s, addr, outs, s')
  {
  }

  /** One message for each of the peers. */
  function Offers(order: seq<SocketAddr>, message: M.Message): seq<(SocketAddr, M.Message)> {
    seq(|order|, i requires 0 <= i < |order| => (order[i], message))
  }

  lemma NoOffers(before: seq<(SocketAddr, M.Message)>, message: M.Message)
    ensures Listing<SocketAddr>([], {}) && before == before + Offers([], message)
  {
  }

  lemma OfferMore(before: seq<(SocketAddr, M.Message)>, order: seq<SocketAddr>, done: set<SocketAddr>,
                  message: M.Message,
                  addr: SocketAddr)
    requires Listing(order, done) && addr !in done
    ensures Listing(order + [addr], done + {addr})
    ensures before + Offers(order, message) + [(addr, message)] == before + Offers(order + [addr], message)
  {
    ListingMore(order, done, addr);
  }

  /** What an output hands to the channels: its message to its peer, or to every channel in some order. */
  ghost predicate Offered(cmds: set<SocketAddr>, o: Output, before: seq<(SocketAddr, M.Message)>,
                          after: seq<(SocketAddr, M.Message)>)
  {
    match o
    case SendToPeer(addr, message) => after == before + if addr in cmds then [(addr, message)] else []
    case Broadcast(message) => exists order :: Listing(order, cmds) && after == before + Offers(order, message)
    case _ => after == before
  }

  lemma OneOffered(cmds: set<SocketAddr>, addr: SocketAddr, message: M.Message, before: seq<(SocketAddr, M.Message)>,
                   after: seq<(SocketAddr, M.Message)>)
    requires after == before + if addr in cmds then [(addr, message)] else []
    ensures Offered(cmds, SendToPeer(addr, message), before, after)
  {
  }

  lemma AllOffered(cmds: set<SocketAddr>, message: M.Message, before: seq<(SocketAddr, M.Message)>,
                   after: seq<(SocketAddr, M.Message)>)
    requires exists order :: Listing(order, cmds) && after == before + Offers(order, message)
    ensures Offered(cmds, Broadcast(message), before, after)
  {
  }

  lemma NoneOffered(cmds: set<SocketAddr>, o: Output, log: seq<(SocketAddr, M.Message)>)
    requires !o.SendToPeer? && !o.Broadcast?
    ensures Offered(cmds, o, log, log)
  {
  }

  lemma NestedOffersNothing(cmds: set<SocketAddr>, o: Output, before: seq<(SocketAddr, M.Message)>,
                            after: seq<(SocketAddr, M.Message)>)
    requires Offered(cmds, o, before, after) && (o.DisconnectPeer? || o.CancelUploadRead?)
    ensures after == before
  {
  }

  lemma TopIsNested(c: Config, w0: World, out: Output, w: World, stack: seq<Output>, rest: seq<Output>)
    requires TookEffect(c, w0, out, w, stack, rest) && stack != []
    ensures stack[|stack| - 1].DisconnectPeer? || stack[|stack| - 1].CancelUploadRead?
  {
    hide Balanced, Effects;
    assert stack[|stack| - 1] in stack;
  }

  // ---- Channels and tasks ----

  /**
   * What one turn does to channels, tasks and registered peers, and what it leaves on the stack in place of the top.
   */
  ghost predicate Acts(sh: Shell, stack0: seq<Output>, sh': Shell, stack: seq<Output>) {
    && stack0 != [] && |stack0| - 1 <= |stack| && stack[..|stack0| - 1] == stack0[..|stack0| - 1]
    && var more := stack[|stack0| - 1..];
    match stack0[|stack0| - 1]
    case ConnectPeer(addr) => sh' == sh.(cmds := sh.cmds + {addr}) && more == []
    case DisconnectPeer(addr) =>
      && sh'.cmds == sh.cmds - {addr} && sh'.handles == sh.handles
      && sh'.s.reg.peers == sh.s.reg.peers - {addr} && forall o :: o in more ==> o.CancelUploadRead?
    case SendToPeer(addr, _) => sh' == sh && (more == [DisconnectPeer(addr)] || (more == [] && addr in sh.cmds))
    case Broadcast(_) => sh' == sh && forall o :: o in more ==> o.DisconnectPeer? && o.addr in sh.cmds
    case ReadForUpload(id, range) => sh' == sh.(handles := sh.handles[id := range]) && more == []
    case CancelUploadRead(id) => sh' == sh.(handles := sh.handles - {id}) && more == []
    case WritePiece(_, _) => sh' == sh && more == []
    case Completed => sh' == sh && more == []
  }

  /** The top is taken off and nothing put in its place. */
  lemma ActsAlone(sh: Shell, stack0: seq<Output>, sh': Shell)
    requires stack0 != []
    requires match stack0[|stack0| - 1]
      case ConnectPeer(addr) => sh' == sh.(cmds := sh.cmds + {addr})
      case SendToPeer(addr, _) => sh' == sh && addr in sh.cmds
      case ReadForUpload(id, range) => sh' == sh.(handles := sh.handles[id := range])
      case CancelUploadRead(id) => sh' == sh.(handles := sh.handles - {id})
      case WritePiece(_, _) => sh' == sh
      case Completed => sh' == sh
      case _ => false
    ensures Acts(sh, stack0, sh', stack0[..|stack0| - 1])
  {
    var init := stack0[..|stack0| - 1];
    assert init[..|stack0| - 1] == init && init[|stack0| - 1..] == [];
  }

  /** The top is replaced. */
  lemma ActsPushing(sh: Shell, stack0: seq<Output>, sh': Shell, more: seq<Output>)
    requires stack0 != []
    requires match stack0[|stack0| - 1]
      case DisconnectPeer(addr) =>
        && sh'.cmds == sh.cmds - {addr} && sh'.handles == sh.handles
        && sh'.s.reg.peers == sh.s.reg.peers - {addr} && forall o :: o in more ==> o.CancelUploadRead?
      case SendToPeer(addr, _) => sh' == sh && more == [DisconnectPeer(addr)]
      case Broadcast(_) => sh' == sh && forall o :: o in more ==> o.DisconnectPeer? && o.addr in sh.cmds
      case _ => false
    ensures Acts(sh, stack0, sh', stack0[..|stack0| - 1] + more)
  {
    var init := stack0[..|stack0| - 1];
    assert (init + more)[..|stack0| - 1] == init && (init + more)[|stack0| - 1..] == more;
  }

  lemma GoneActs(sh: Shell, stack0: seq<Output>, outs: seq<Output>, s': State)
    requires stack0 != [] && stack0[|stack0| - 1].DisconnectPeer?
    requires OnDisconnected(sh.s, stack0[|stack0| - 1].addr, outs, s')
    ensures Acts(sh, stack0, Shell(s', sh.cmds - {stack0[|stack0| - 1].addr}, sh.handles),
                 stack0[..|stack0| - 1] + Reversed(outs))
  {
    var addr := stack0[|stack0| - 1].addr;
    Runs.CancelsOnlyCancel(sh.s.pending, Orphaned(sh.s.pending, addr), outs);
    hide Cancels, Registries.WithoutPeer, WithoutWaiter, Acts;
    ActsPushing(sh, stack0, Shell(s', sh.cmds - {addr}, sh.handles), Reversed(outs));
  }

  /** The channels and tasks right after an output, before any disconnection it leads to. */
  function Opened(o: Output, sh: Shell): Shell {
    match o
    case ConnectPeer(addr) => sh.(cmds := sh.cmds + {addr})
    case ReadForUpload(id, range) => sh.(handles := sh.handles[id := range])
    case CancelUploadRead(id) => sh.(handles := sh.handles - {id})
    case _ => sh
  }

  /** Whom an output can disconnect. */
  function MayGo(o: Output, cmds: set<SocketAddr>): set<SocketAddr> {
    match o
    case DisconnectPeer(addr) => {addr}
    case SendToPeer(addr, _) => {addr}
    case Broadcast(_) => cmds
    case _ => {}
  }

  /** Some peers have lost their channel and their registration, and some tasks are gone. */
  ghost predicate Closed(start: Shell, gone: set<SocketAddr>, sh: Shell) {
    && sh.cmds == start.cmds - gone && sh.s.reg.peers == start.s.reg.peers - gone
    && forall id :: id in sh.handles ==> id in start.handles && sh.handles[id] == start.handles[id]
  }

  ghost function Targets(stack: seq<Output>): set<SocketAddr> {
    set o | o in stack && o.DisconnectPeer? :: o.addr
  }

  /** What an output has led to so far, and can still lead to. */
  ghost predicate Leads(out: Output, sh0: Shell, sh: Shell, stack: seq<Output>, gone: set<SocketAddr>) {
    && Closed(Opened(out, sh0), gone, sh) && gone + Targets(stack) <= MayGo(out, sh0.cmds)
    && (out.DisconnectPeer? ==> out.addr in gone)
  }

  /** The addresses that outputs connect to. */
  ghost function Dialled(outs: seq<Output>): set<SocketAddr> {
    set o | o in outs && o.ConnectPeer? :: o.addr
  }

  /** An output opens no channel but the one it dials. */
  lemma LeadsWithin(out: Output, sh0: Shell, sh: Shell, gone: set<SocketAddr>)
    requires Leads(out, sh0, sh, [], gone)
    ensures sh.cmds <= sh0.cmds + Dialled([out])
  {
    assert out in [out];
  }

  lemma DialledMore(cmds0: set<SocketAddr>, outs: seq<Output>, i: nat, cmds: set<SocketAddr>, cmds': set<SocketAddr>)
    requires i < |outs| && cmds <= cmds0 + Dialled(outs[..i]) && cmds' <= cmds + Dialled([outs[i]])
    ensures cmds' <= cmds0 + Dialled(outs[..i + 1])
  {
    assert outs[..i + 1] == outs[..i] + [outs[i]];
  }

  lemma FirstLeads(out: Output, sh0: Shell, sh: Shell, stack: seq<Output>)
    requires Acts(sh0, [out], sh, stack)
    ensures Leads(out, sh0, sh, stack, if out.DisconnectPeer? then {out.addr} else {})
  {
    assert stack[0..] == stack;
  }

  lemma NextLeads(out: Output, sh0: Shell, sh: Shell, stack: seq<Output>, gone: set<SocketAddr>, sh': Shell,
                  stack': seq<Output>)
    requires Leads(out, sh0, sh, stack, gone) && Acts(sh, stack, sh', stack')
    requires stack[|stack| - 1].DisconnectPeer? || stack[|stack| - 1].CancelUploadRead?
    ensures var o := stack[|stack| - 1];
      Leads(out, sh0, sh', stack', gone + if o.DisconnectPeer? then {o.addr} else {})
  {
    var o := stack[|stack| - 1];
    var kept, more := stack'[..|stack| - 1], stack'[|stack| - 1..];
    assert o in stack && stack' == kept + more;
    forall x | x in stack' && x.DisconnectPeer? ensures x in stack {
      assert x in kept || x in more;
    }
  }

  // ---- The shell ----

  class SwarmIO {
    const swarm: Swarm
    const storage: DiskStorage
    /** The contents of the files when the run started. */
    const disk: bytes
    var peerCmds: set<SocketAddr>
    var readHandles: map<nat, BlockRange>
    var published: seq<Snapshot>
    /** Where the read tasks have put their commands. */
    ghost var sent: Sent
    /** Every message handed to a peer's channel, in order, whether the channel took it or not. */
    var offered: seq<(SocketAddr, M.Message)>

    ghost function Now(): (w: World)
      reads this, storage, swarm, swarm.registry, swarm.registry.availability, swarm.assignments, swarm.manager.pieces
      ensures w == World(Shell(swarm.View(), peerCmds, readHandles), storage.queued, sent)
    {
      World(Shell(swarm.View(), peerCmds, readHandles), storage.queued, sent)
    }

    /** What the storage worker will have stored once the queue is drained. */
    function Stored(): (r: bytes)
      reads storage
      ensures r == Execute(disk, storage.queued).0
    {
      Execute(disk, storage.queued).0
    }

    ghost predicate Valid()
      reads swarm.manager.pieces, swarm.manager.bitfield.data
      ensures Valid() ==> storage.metainfo == swarm.config.metainfo && swarm.Valid()
    {
      && swarm.Valid() && storage.metainfo == swarm.config.metainfo
      && |disk| == TotalSize(swarm.config.metainfo)
    }

    constructor (config: Config, disk: bytes)
      requires Coherent(config.metainfo) && |disk| == TotalSize(config.metainfo)
      ensures Valid() && this.disk == disk && swarm.config == config && storage.queued == []
      ensures IsInit(config, swarm.View()) && peerCmds == {} && readHandles == map[] && published == []
      ensures sent == map[] && offered == []
      ensures fresh(swarm) && fresh(storage) && fresh(swarm.registry) && fresh(swarm.registry.availability)
      ensures fresh(swarm.assignments) && fresh(swarm.manager.pieces) && fresh(swarm.manager.bitfield.data)
    {
      this.disk := disk;
      swarm := new Swarm(config);
      storage := new DiskStorage(config.metainfo);
      peerCmds, readHandles, published, sent, offered := {}, map[], [], map[], [];
    }

    /** Sending fails without a channel, and may fail with one. */
    method SendToPeer(addr: SocketAddr, message: M.Message) returns (took: bool)
      modifies this`offered
      ensures took ==> addr in peerCmds
      ensures offered == old(offered) + if addr in peerCmds then [(addr, message)] else []
    {
      if addr !in peerCmds {
        return false;
      }
      offered := offered + [(addr, message)];
      took := *;
    }

    /** A broadcast offers the message to every channel once; those that do not take it are to be disconnected. */
    method SendToAll(stack0: seq<Output>, message: M.Message) returns (stack: seq<Output>)
      modifies this`offered
      ensures |stack0| <= |stack| && stack[..|stack0|] == stack0
      ensures forall o :: o in stack[|stack0|..] ==> o.DisconnectPeer? && o.addr in peerCmds
      ensures exists order :: Listing(order, peerCmds) && offered == old(offered) + Offers(order, message)
    {
      stack := stack0;
      var left := peerCmds;
      ghost var order: seq<SocketAddr>, done: set<SocketAddr> := [], {};
      NoOffers(old(offered), message);
      hide Listing, Offers;
      while left != {}
        invariant |stack0| <= |stack| && stack[..|stack0|] == stack0
        invariant forall o :: o in stack[|stack0|..] ==> o.DisconnectPeer? && o.addr in peerCmds
        invariant left <= peerCmds && done == peerCmds - left && Listing(order, done)
        invariant offered == old(offered) + Offers(order, message)
        decreases |left|
      {
        var addr :| addr in left;
        var took := SendToPeer(addr, message);
        if !took {
          assert (stack + [DisconnectPeer(addr)])[|stack0|..] == stack[|stack0|..] + [DisconnectPeer(addr)];
          stack := stack + [DisconnectPeer(addr)];
        }
        OfferMore(old(offered), order, done, message, addr);
        left, order, done := left - {addr}, order + [addr], done + {addr};
      }
      assert done == peerCmds;
    }

    method StepDisconnected(addr: SocketAddr) returns (outs: seq<Output>)
      requires Valid()
      modifies swarm, swarm.registry, swarm.registry.availability, swarm.assignments, swarm.manager.pieces,
        swarm.manager.bitfield.data
      ensures Valid() && OnDisconnected(old(swarm.View()), addr, outs, swarm.View())
    {
      hide Next, OnDisconnected;
      outs := swarm.Step(PeerDisconnected(addr));
      NextIsDisconnected(swarm.config, old(swarm.View()), addr, outs, swarm.View());
    }

    /** `DisconnectPeer`: the channel goes, and the swarm is told, whose outputs go on the stack. */
    method Drop(stack0: seq<Output>, ghost rest: seq<Output>) returns (stack: seq<Output>)
      requires Valid() && stack0 != [] && stack0[|stack0| - 1].DisconnectPeer?
      requires Balanced(swarm.config, Now().sh, stack0, rest)
      modifies this`peerCmds, swarm, swarm.registry, swarm.registry.availability, swarm.assignments,
        swarm.manager.pieces,
        swarm.manager.bitfield.data
      ensures Valid() && Turn(swarm.config, old(Now()), stack0, Now(), stack, rest)
      ensures Acts(old(Now()).sh, stack0, Now().sh, stack)
    {
      hide *;
      var addr := stack0[|stack0| - 1].addr;
      peerCmds := peerCmds - {addr};
      var outs := StepDisconnected(addr);
      stack := stack0[..|stack0| - 1] + Reversed(outs);
      GoneActs(old(Now()).sh, stack0, outs, swarm.View());
      DropTurn(swarm.config, old(Now()), stack0, rest, outs, swarm.View());
    }

    method ConnectTop(stack0: seq<Output>, ghost rest: seq<Output>, addr: SocketAddr)
      requires stack0 != [] && stack0[|stack0| - 1] == ConnectPeer(addr)
      requires Balanced(swarm.config, Now().sh, stack0, rest)
      modifies this`peerCmds
      ensures Turn(swarm.config, old(Now()), stack0, Now(), stack0[..|stack0| - 1], rest)
      ensures Acts(old(Now()).sh, stack0, Now().sh, stack0[..|stack0| - 1])
    {
      hide *;
      PopOther(swarm.config, Now().sh, stack0, rest, peerCmds + {addr});
      PopShrinks(stack0, |swarm.View().pending|);
      peerCmds := peerCmds + {addr};
      ActsAlone(old(Now()).sh, stack0, Now().sh);
      TurnIs(swarm.config, old(Now()), stack0, Now(), stack0[..|stack0| - 1], rest);
    }

    method CancelTop(stack0: seq<Output>, ghost rest: seq<Output>, id: nat)
      requires stack0 != [] && stack0[|stack0| - 1] == CancelUploadRead(id)
      requires Balanced(swarm.config, Now().sh, stack0, rest)
      modifies this`readHandles
      ensures Turn(swarm.config, old(Now()), stack0, Now(), stack0[..|stack0| - 1], rest)
      ensures Acts(old(Now()).sh, stack0, Now().sh, stack0[..|stack0| - 1])
    {
      hide *;
      PopCancel(swarm.config, Now().sh, stack0, rest);
      PopShrinks(stack0, |swarm.View().pending|);
      readHandles := readHandles - {id};
      ActsAlone(old(Now()).sh, stack0, Now().sh);
      TurnIs(swarm.config, old(Now()), stack0, Now(), stack0[..|stack0| - 1], rest);
    }

    method SendTop(stack0: seq<Output>, ghost rest: seq<Output>, addr: SocketAddr, message: M.Message)
        returns (stack: seq<Output>)
      requires stack0 != [] && stack0[|stack0| - 1] == Output.SendToPeer(addr, message)
      requires Balanced(swarm.config, Now().sh, stack0, rest)
      modifies this`offered
      ensures offered == old(offered) + if addr in peerCmds then [(addr, message)] else []
      ensures Turn(swarm.config, Now(), stack0, Now(), stack, rest) && Acts(Now().sh, stack0, Now().sh, stack)
    {
      hide *;
      var took := SendToPeer(addr, message);
      if took {
        ActsAlone(Now().sh, stack0, Now().sh);
        PopOther(swarm.config, Now().sh, stack0, rest, peerCmds);
        PopShrinks(stack0, |swarm.View().pending|);
        stack := stack0[..|stack0| - 1];
      } else {
        SendFails(swarm.config, Now().sh, stack0, rest);
        FailShrinks(stack0, |swarm.View().pending|);
        stack := stack0[..|stack0| - 1] + [DisconnectPeer(addr)];
        ActsPushing(Now().sh, stack0, Now().sh, [DisconnectPeer(addr)]);
      }
      TurnIs(swarm.config, Now(), stack0, Now(), stack, rest);
    }

    method BroadcastTop(stack0: seq<Output>, ghost rest: seq<Output>, message: M.Message) returns (stack: seq<Output>)
      requires stack0 != [] && stack0[|stack0| - 1] == Broadcast(message)
      requires Balanced(swarm.config, Now().sh, stack0, rest)
      modifies this`offered
      ensures exists order :: Listing(order, peerCmds) && offered == old(offered) + Offers(order, message)
      ensures Turn(swarm.config, Now(), stack0, Now(), stack, rest) && Acts(Now().sh, stack0, Now().sh, stack)
    {
      ghost var init := stack0[..|stack0| - 1];
      hide *;
      stack := SendToAll(stack0[..|stack0| - 1], message);
      ghost var more := stack[|init|..];
      assert stack == init + more;
      ActsPushing(Now().sh, stack0, Now().sh, more);
      PopOther(swarm.config, Now().sh, stack0, rest, peerCmds);
      TopIsNoIssue(swarm.config, Now().sh, stack0, rest);
      PushDisconnects(swarm.config, Now().sh, init, rest, more);
      BroadcastShrinks(stack0, more, |swarm.View().pending|);
      TurnIs(swarm.config, Now(), stack0, Now(), stack, rest);
    }

    /** The outputs that concern channels and read tasks only. */
    method HandlePeer(stack0: seq<Output>, ghost rest: seq<Output>) returns (stack: seq<Output>)
      requires stack0 != [] && Balanced(swarm.config, Now().sh, stack0, rest)
      requires var o := stack0[|stack0| - 1]; o.ConnectPeer? || o.SendToPeer? || o.Broadcast? || o.CancelUploadRead?
      modifies this`peerCmds, this`readHandles, this`offered
      ensures Turn(swarm.config, old(Now()), stack0, Now(), stack, rest)
      ensures Acts(old(Now()).sh, stack0, Now().sh, stack)
      ensures Offered(old(peerCmds), stack0[|stack0| - 1], old(offered), offered)
    {
      hide *;
      stack := stack0[..|stack0| - 1];
      match stack0[|stack0| - 1] {
        case ConnectPeer(addr) =>
          ConnectTop(stack0, rest, addr);
          NoneOffered(old(peerCmds), ConnectPeer(addr), offered);
        case SendToPeer(addr, message) =>
          stack := SendTop(stack0, rest, addr, message);
          OneOffered(peerCmds, addr, message, old(offered), offered);
        case Broadcast(message) =>
          stack := BroadcastTop(stack0, rest, message);
          AllOffered(peerCmds, message, old(offered), offered);
        case CancelUploadRead(id) =>
          CancelTop(stack0, rest, id);
          NoneOffered(peerCmds, CancelUploadRead(id), offered);
      }
    }

    /** A flush or a write may fail for reasons of the file system, and then the run ends. */
    method Flush() returns (ok: bool)
      modifies storage
      ensures storage.queued == old(storage.queued) + Effect(swarm.config.metainfo, Completed)
    {
      storage.Flush();
      ok := *;
    }

    method WriteTo(range: BlockRange, data: bytes) returns (ok: bool)
      requires storage.metainfo == swarm.config.metainfo
      modifies storage
      ensures ok ==> Effect(swarm.config.metainfo, WritePiece(range, data)) != []
      ensures ok ==> storage.queued == old(storage.queued) + Effect(swarm.config.metainfo, WritePiece(range, data))
    {
      ok := storage.Write(range, data);
      var accepted: bool := *;
      ok := ok && accepted;
    }

    /** `ReadForUpload`: a task is spawned; it has not been polled yet. */
    method StartTask(id: nat, range: BlockRange)
      modifies this`readHandles
      ensures readHandles == old(readHandles)[id := range]
      ensures storage.queued == old(storage.queued) + Effect(swarm.config.metainfo, ReadForUpload(id, range))
    {
      readHandles := readHandles[id := range];
    }

    /** The outputs that concern the storage worker. */
    method HandleStorage(stack0: seq<Output>, ghost rest: seq<Output>) returns (ok: bool)
      requires storage.metainfo == swarm.config.metainfo
      requires stack0 != [] && Balanced(swarm.config, Now().sh, stack0, rest)
      requires var o := stack0[|stack0| - 1]; o.Completed? || o.WritePiece? || o.ReadForUpload?
      modifies this`readHandles, storage
      ensures ok ==> Turn(swarm.config, old(Now()), stack0, Now(), stack0[..|stack0| - 1], rest)
      ensures Acts(old(Now()).sh, stack0, Now().sh, stack0[..|stack0| - 1])
    {
      hide *;
      match stack0[|stack0| - 1] {
        case Completed =>
          PopOther(swarm.config, Now().sh, stack0, rest, peerCmds);
          ok := Flush();
        case WritePiece(range, data) =>
          PopOther(swarm.config, Now().sh, stack0, rest, peerCmds);
          ok := WriteTo(range, data);
        case ReadForUpload(id, range) =>
          IssueIsAlone(swarm.config, Now().sh, stack0, rest);
          PopIssue(swarm.config, Now().sh, id, range);
          StartTask(id, range);
          ok := true;
      }
      ActsAlone(old(Now()).sh, stack0, Now().sh);
      if ok {
        StorageTurn(swarm.config, old(Now()), stack0, Now(), rest);
      }
    }

    /** One turn of the worklist; false is a storage error, which ends the run. */
    method HandleTop(stack0: seq<Output>, ghost rest: seq<Output>) returns (stack: seq<Output>, ok: bool)
      requires Valid() && stack0 != [] && Balanced(swarm.config, Now().sh, stack0, rest)
      modifies this`peerCmds, this`readHandles, this`offered, storage, swarm, swarm.registry,
        swarm.registry.availability,
        swarm.assignments, swarm.manager.pieces, swarm.manager.bitfield.data
      ensures Valid() && (ok ==> Turn(swarm.config, old(Now()), stack0, Now(), stack, rest))
      ensures Acts(old(Now()).sh, stack0, Now().sh, stack)
      ensures Offered(old(peerCmds), stack0[|stack0| - 1], old(offered), offered)
    {
      hide *;
      var out := stack0[|stack0| - 1];
      ok := true;
      if out.DisconnectPeer? {
        stack := Drop(stack0, rest);
        NoneOffered(old(peerCmds), out, offered);
      } else if out.Completed? || out.WritePiece? || out.ReadForUpload? {
        stack := stack0[..|stack0| - 1];
        ok := HandleStorage(stack0, rest);
        NoneOffered(old(peerCmds), out, offered);
      } else {
        stack := HandlePeer(stack0, rest);
      }
    }

    /**
     * `handle_output`: the worklist started by one output. It terminates, takes the output's effect once, and leaves
     * the channels, tasks and registered peers it leads to: those in `gone` have lost both channel and registration.
     */
    method HandleOutput(out: Output, ghost rest: seq<Output>) returns (ok: bool, ghost gone: set<SocketAddr>)
      requires Valid() && Balanced(swarm.config, Now().sh, [out], rest)
      modifies this`peerCmds, this`readHandles, this`offered, storage, swarm, swarm.registry,
        swarm.registry.availability,
        swarm.assignments, swarm.manager.pieces, swarm.manager.bitfield.data
      ensures Valid() && (ok ==> TookEffect(swarm.config, old(Now()), out, Now(), [], rest))
      ensures ok ==> Leads(out, old(Now()).sh, Now().sh, [], gone)
      ensures Offered(old(peerCmds), out, old(offered), offered)
    {
      hide *;
      var stack := [out];
      ok, gone := true, {};
      ghost var started := false;
      while stack != [] && ok
        invariant Valid()
        invariant !started ==> Balanced(swarm.config, Now().sh, stack, rest) && Now() == old(Now())
        invariant started ==> Offered(old(peerCmds), out, old(offered), offered)
        invariant !started ==> offered == old(offered) && peerCmds == old(peerCmds)
        invariant !started ==> stack == [out] && ok
        invariant ok && started ==> TookEffect(swarm.config, old(Now()), out, Now(), stack, rest)
        invariant ok && started ==> Leads(out, old(Now()).sh, Now().sh, stack, gone)
        decreases ok, !started, Broadcasting(stack), Weight(stack) + |swarm.View().pending|
      {
        ghost var w, before := Now(), stack;
        if started {
          EffectBalanced(swarm.config, old(Now()), out, w, stack, rest);
        }
        ghost var cmds, log := peerCmds, offered;
        if started {
          TopIsNested(swarm.config, old(Now()), out, w, stack, rest);
        }
        stack, ok := HandleTop(stack, rest);
        if started {
          NestedOffersNothing(cmds, before[|before| - 1], log, offered);
        }
        if ok {
          if started {
            NextLeads(out, old(Now()).sh, w.sh, before, gone, Now().sh, stack);
            gone := gone + if before[|before| - 1].DisconnectPeer? then {before[|before| - 1].addr} else {};
            TurnContinues(swarm.config, old(Now()), out, w, before, Now(), stack, rest);
          } else {
            FirstLeads(out, w.sh, Now().sh, stack);
            gone := if out.DisconnectPeer? then {out.addr} else {};
            TurnStarts(swarm.config, w, out, Now(), stack, rest);
          }
          TurnShrinks(swarm.config, w, before, Now(), stack, rest);
        }
        started := true;
      }
    }

    /** All outputs of a step, one after the other. */
    method HandleAll(outs: seq<Output>) returns (ok: bool)
      requires Valid() && Balanced(swarm.config, Now().sh, [], outs)
      modifies this`peerCmds, this`readHandles, this`offered, storage, swarm, swarm.registry,
        swarm.registry.availability,
        swarm.assignments, swarm.manager.pieces, swarm.manager.bitfield.data
      ensures Valid() && (ok ==> AllHandled(swarm.config, disk, old(Now()), outs, Now()))
      ensures ok ==> peerCmds <= old(peerCmds) + Dialled(outs)
    {
      hide *;
      MidwayStarts(swarm.config, disk, Now(), outs);
      for i := 0 to |outs|
        invariant Valid() && Midway(swarm.config, disk, old(Now()), outs, i, Now())
        invariant peerCmds <= old(peerCmds) + Dialled(outs[..i])
      {
        ghost var w := Now();
        MidwayWaits(swarm.config, disk, old(Now()), outs, i, w);
        ghost var gone;
        ok, gone := HandleOutput(outs[i], outs[i + 1..]);
        if !ok {
          return;
        }
        MidwayAdvances(swarm.config, disk, old(Now()), outs, i, w, Now());
        LeadsWithin(outs[i], w.sh, Now().sh, gone);
        DialledMore(old(peerCmds), outs, i, w.sh.cmds, peerCmds);
      }
      assert outs[..|outs|] == outs;
      MidwayEnds(swarm.config, disk, old(Now()), outs, Now());
      ok := true;
    }

    /** The part of `snapshot` that decides completion. */
    method TakeSnapshot() returns (shown: Snapshot)
      requires Valid()
      ensures shown.bytesTotal == TotalSize(swarm.config.metainfo)
      ensures shown.bytesAvailable == shown.bytesTotal <==> AllComplete(swarm.View().pieces)
    {
      var m, states := swarm.config.metainfo, swarm.manager.States();
      hide AvailableBytes, PieceManager.Valid, PiecesOk;
      AvailableIffComplete(m, states);
      shown := Snapshot(TotalSize(m), AvailableBytes(m, states, |states|));
    }

    /** `publish`: completion shows only when every piece is complete, and then nothing waits for the barrier. */
    method Publish()
      requires Valid() && LoopHead(swarm.config, disk, Now())
      modifies this`published
      ensures |published| == |old(published)| + 1 && published[..|old(published)|] == old(published)
      ensures var shown := published[|old(published)|];
        && shown.bytesTotal == TotalSize(swarm.config.metainfo)
        && (shown.bytesAvailable == shown.bytesTotal <==> AllComplete(swarm.View().pieces))
        && (shown.bytesAvailable == shown.bytesTotal ==> !Unflushed(storage.queued))
    {
      hide *;
      var shown := TakeSnapshot();
      published := published + [shown];
      if AllComplete(swarm.View().pieces) {
        HeadIsFlushed(swarm.config, disk, Now());
      }
    }

    method StepLocal(i: nat, data: bytes)
      requires Valid()
      modifies swarm, swarm.registry, swarm.registry.availability, swarm.assignments, swarm.manager.pieces,
        swarm.manager.bitfield.data
      ensures Valid() && swarm.View() == AfterLocal(swarm.config, old(swarm.View()), i, data)
    {
      hide Next, AfterLocal;
      var outs := swarm.Step(LocalPiece(i, data));
      NextIsLocal(swarm.config, old(swarm.View()), i, data, outs, swarm.View());
    }

    /** A read that is waited for at once; it may fail for reasons of the file system. */
    method ReadNow(range: BlockRange) returns (data: Option<bytes>)
      requires storage.metainfo == swarm.config.metainfo && OnlyReads(storage.queued)
      modifies storage
      ensures OnlyReads(storage.queued)
      ensures data.Some? ==> StorageOffset(swarm.config.metainfo, range).Some?
      ensures data.Some? ==> data.value == Clip(disk, StorageOffset(swarm.config.metainfo, range).value, range.len)
    {
      hide StorageOffset, Clip, Execute;
      ghost var before := storage.queued;
      var ok := storage.Read(range);
      var answered: bool := *;
      if !ok || !answered {
        return None;
      }
      ReadsKeepStore(disk, before);
      AnswerAt(disk, storage.queued, |before|);
      assert storage.queued[..|before|] == before;
      match Execute(disk, storage.queued).1[|storage.queued| - 1] {
        case Some(ReadReply(bytes)) => return Some(bytes);
        case _ => return None;
      }
    }

    /** The loop of `restore`. */
    method RestorePieces() returns (ok: bool)
      requires Valid() && IsInit(swarm.config, swarm.View()) && storage.queued == []
      modifies storage, swarm, swarm.registry, swarm.registry.availability, swarm.assignments,
        swarm.manager.pieces, swarm.manager.bitfield.data
      ensures Valid()
      ensures ok ==> OnlyReads(storage.queued) && |swarm.View().pieces| == |swarm.config.metainfo.pieces|
      ensures ok ==> RestoredUpTo(swarm.config, disk, old(swarm.View()), swarm.View(), |swarm.config.metainfo.pieces|)
    {
      hide *;
      ghost var c, init := swarm.config, swarm.View();
      var m := swarm.config.metainfo;
      var remaining: int := TotalSize(m);
      InitCoherent(c, init);
      DiskFits();
      RestoreStarts(c, disk, init);
      StartsAtZero(m);
      NoReadsYet();
      for i := 0 to |m.pieces|
        invariant Valid() && OnlyReads(storage.queued)
        invariant |swarm.View().pieces| == |m.pieces| && RestoredUpTo(c, disk, init, swarm.View(), i)
        invariant i < |m.pieces| ==> remaining == TotalSize(m) - PieceStart(m, i) && remaining >= 0
      {
        RestoreRange(m, i, remaining);
        var len := if remaining < m.pieceLength then remaining else m.pieceLength;
        var data := ReadNow(BlockRange(i, 0, len));
        if data == None {
          return false;
        }
        remaining := remaining - len;
        PieceIsClip(m, disk, i);
        RestoreOne(c, disk, init, swarm.View(), i);
        StepLocal(i, data.value);
      }
      ok := true;
    }

    /**
     * `restore`: a fresh swarm is offered every piece from the store. It completes exactly the pieces whose
     * stored bytes have the expected hash, and the loop can start.
     */
    method Restore() returns (ok: bool)
      requires Valid() && IsInit(swarm.config, swarm.View()) && storage.queued == [] && readHandles == map[]
      requires sent == map[]
      modifies this`published, storage, swarm, swarm.registry, swarm.registry.availability, swarm.assignments,
        swarm.manager.pieces, swarm.manager.bitfield.data
      ensures Valid()
      ensures ok ==> LoopHead(swarm.config, disk, Now()) && Restored(swarm.config, disk, swarm.View())
      ensures ok ==> |published| == |old(published)| + 1
    {
      ghost var init := swarm.View();
      InitCoherent(swarm.config, init);
      DiskFits();
      hide *;
      ok := RestorePieces();
      if ok {
        RestoreEnds(swarm.config, disk, init, Now());
        RestoredAll(swarm.config, disk, init, swarm.View());
        Publish();
      }
    }

    lemma DiskFits()
      requires Valid()
      ensures |disk| == TotalSize(swarm.config.metainfo)
    {
    }

    /** `accept_inbound`: a channel for a new connection; an address that has one is left alone. */
    method AcceptInbound(addr: SocketAddr)
      requires Valid() && LoopHead(swarm.config, disk, Now())
      modifies this`peerCmds
      ensures Valid() && LoopHead(swarm.config, disk, Now()) && peerCmds == old(peerCmds) + {addr}
    {
      if addr in peerCmds {
        assert peerCmds + {addr} == peerCmds;
        return;
      }
      peerCmds := peerCmds + {addr};
      hide *;
      MoreChannels(swarm.config, disk, old(Now()), Now());
    }

    /**
     * A read task is polled for the first time, at whatever loop head after it was spawned: only now its command joins
     * the queue. It will be answered with what is stored now, in a complete piece and therefore for good.
     */
    method PollTask(id: nat)
      requires Valid() && LoopHead(swarm.config, disk, Now()) && id in readHandles && id !in sent
      modifies this`sent, storage
      ensures Valid() && LoopHead(swarm.config, disk, Now())
      ensures sent == old(sent)[id := |old(storage.queued)|] && old(storage.queued) <= storage.queued
      ensures Stored() == old(Stored())
    {
      hide *;
      ghost var w := Now();
      TaskReads(swarm.config, disk, w, id);
      var _ := storage.Read(readHandles[id]);
      sent := sent[id := |storage.queued| - 1];
      PollKeepsHead(swarm.config, disk, w, id);
      assert Stored() == Execute(disk, storage.queued).0;
      assert Now() == w.(queued := storage.queued, sent := sent);
    }

    method StepSwarm(input: Input) returns (outs: seq<Output>)
      requires Valid()
      modifies swarm, swarm.registry, swarm.registry.availability, swarm.assignments, swarm.manager.pieces,
        swarm.manager.bitfield.data
      ensures Valid() && Next(swarm.config, old(swarm.View()), input, outs, swarm.View())
    {
      hide Next;
      outs := swarm.Step(input);
    }

    /** What the loop does before the swarm sees an input. */
    method Prepare(input: Input)
      modifies this`peerCmds, this`readHandles
      ensures peerCmds == old(peerCmds) - if input.PeerDisconnected? then {input.addr} else {}
      ensures Now().sh == Prepared(old(Now()).sh, input)
      ensures Now().queued == old(Now()).queued && Now().sent == old(Now()).sent
    {
      match input {
        case UploadReadCompleted(id, _, _) => readHandles := readHandles - {id};
        case PeerDisconnected(addr) => peerCmds := peerCmds - {addr};
        case _ =>
      }
    }

    /**
     * One iteration of `run_loop`: the input is prepared for, the swarm takes its step, all outputs are
     * handled, and the new state is published. Every loop head property survives; a storage error ends the run.
     */
    method RunStep(input: Input) returns (ok: bool, ghost outs: seq<Output>)
      requires Valid() && LoopHead(swarm.config, disk, Now()) && LoopInput(disk, Now(), input)
      modifies this, storage, swarm, swarm.registry, swarm.registry.availability, swarm.assignments,
        swarm.manager.pieces, swarm.manager.bitfield.data
      ensures Valid() && (ok ==> LoopHead(swarm.config, disk, Now()))
      ensures forall o :: o in outs && o.SendToPeer? && o.message.Piece? ==>
        VerifiedUpload(swarm.config, old(swarm.View()), old(Stored()), o.message.range, o.message.data)
      ensures ok ==> peerCmds <= old(peerCmds) - (if input.PeerDisconnected? then {input.addr} else {}) + Dialled(outs)
      ensures ok ==> swarm.View().reg.peers.Keys <= peerCmds
      ensures ok ==> |published| == |old(published)| + 1
      ensures ok && published[|old(published)|].bytesAvailable == published[|old(published)|].bytesTotal ==>
        AllComplete(swarm.View().pieces) && !Unflushed(storage.queued)
    {
      hide *;
      ghost var w := Now();
      Prepare(input);
      var outputs := StepSwarm(input);
      outs := outputs;
      ghost var mid := Now();
      LoopStep(swarm.config, disk, w, input, outs, mid.sh.s);
      ok := HandleAll(outputs);
      if ok {
        LoopHeadKept(swarm.config, disk, w, input, outs, mid.sh.s, Now());
        HeadHasChannels(swarm.config, disk, Now());
        Publish();
      }
    }
  }

  /** After the step its outputs wait with balanced books, and any uploaded bytes are verified ones. */
  lemma LoopStep(c: Config, disk: bytes, w: World, input: Input, outs: seq<Output>, s': State)
    requires LoopHead(c, disk, w) && LoopInput(disk, w, input) && Next(c, w.sh.s, input, outs, s')
    ensures Balanced(c, Prepared(w.sh, input).(s := s'), [], outs)
    ensures forall o :: o in outs && o.SendToPeer? && o.message.Piece? ==>
      VerifiedUpload(c, w.sh.s, Execute(disk, w.queued).0, o.message.range, o.message.data)
  {
    LoopInputFromStore(c, disk, w, input);
    SettledInv(c, w.sh);
    hide Inv, Ready, Next, Verified, TasksOk, BooksSettled, FromStore, VerifiedUpload, Execute, Balanced;
    StepBalances(c, w.sh, input, outs, s');
    Wait(c, Prepared(w.sh, input).(s := s'), outs);
    forall o | o in outs && o.SendToPeer? && o.message.Piece?
      ensures VerifiedUpload(c, w.sh.s, Execute(disk, w.queued).0, o.message.range, o.message.data) {
      StepUploads(c, w.sh.s, input, outs, s', Execute(disk, w.queued).0, o);
    }
  }

  lemma TaskReads(c: Config, disk: bytes, w: World, id: nat)
    requires LoopHead(c, disk, w) && id in w.sh.handles
    ensures StorageOffset(c.metainfo, w.sh.handles[id]).Some? && id < w.sh.s.nextId
  {
    hide Inv, Verified, StorageOffset, TasksOk;
    PendingHasAddress(c, w.sh.s, w.sh.handles[id]);
  }

  lemma PollKeepsHead(c: Config, disk: bytes, w: World, id: nat)
    requires LoopHead(c, disk, w) && id in w.sh.handles && id !in w.sent
    requires StorageOffset(c.metainfo, w.sh.handles[id]).Some? && id < w.sh.s.nextId
    ensures var cmd := Command.Read(StorageOffset(c.metainfo, w.sh.handles[id]).value, w.sh.handles[id].len, false);
      && LoopHead(c, disk, w.(queued := w.queued + [cmd], sent := w.sent[id := |w.queued|]))
      && Execute(disk, w.queued + [cmd]).0 == Execute(disk, w.queued).0
  {
    var cmd := Command.Read(StorageOffset(c.metainfo, w.sh.handles[id]).value, w.sh.handles[id].len, false);
    ReadStores(disk, w.queued, cmd);
    hide BooksSettled, Verified, StorageOffset, TasksOk, Execute, Unflushed;
    TaskStarts(c, w.sh.s, disk, w.queued, w.sh.handles, w.sent, id);
  }

  lemma HeadHasChannels(c: Config, disk: bytes, w: World)
    requires LoopHead(c, disk, w)
    ensures w.sh.s.reg.peers.Keys <= w.sh.cmds
  {
    hide Inv, Verified, TasksOk;
  }

  lemma HeadIsFlushed(c: Config, disk: bytes, w: World)
    requires LoopHead(c, disk, w) && AllComplete(w.sh.s.pieces)
    ensures !Unflushed(w.queued)
  {
  }

  lemma MoreChannels(c: Config, disk: bytes, w: World, w': World)
    requires LoopHead(c, disk, w) && w.sh.cmds <= w'.sh.cmds && w' == w.(sh := w.sh.(cmds := w'.sh.cmds))
    ensures LoopHead(c, disk, w')
  {
    hide Inv, Verified;
  }

  // ---- Down to the files ----

  /**
   * A session is opened: the files are laid out, hold what they held before, and are what the shell's queue starts
   * from.
   */
  method Open(config: Config, existing: seq<bytes>) returns (files: seq<OutputFile>, io: SwarmIO)
    requires Coherent(config.metainfo) && HasLengths(existing, FileLengths(config.metainfo))
    ensures fresh(files) && LaidOut(files) && Contents(files) == existing
    ensures fresh(io) && io.Valid() && io.swarm.config == config && io.disk == Flat(files)
    ensures IsInit(config, io.swarm.View()) && io.storage.queued == [] && io.readHandles == map[] && io.sent == map[]
  {
    files := CreateFiles(config.metainfo, existing);
    hide *;
    io := new SwarmIO(config, Flat(files));
  }

  /** The worker's answer to a task is the range it asked for, out of a complete piece with its expected hash. */
  ghost predicate Answered(c: Config, s: State, store: bytes, r: BlockRange, reply: Option<Reply>)
    requires Ready(c, s)
  {
    reply.Some? && reply.value.ReadReply? && VerifiedUpload(c, s, store, r, reply.value.data)
  }

  /**
   * Whenever the loop waits and the worker has caught up with its queue: the bytes in the files themselves have the
   * expected hash for every complete piece, and every task that has sent its command gets verified bytes.
   */
  method CatchUp(c: Config, files: seq<OutputFile>, cmds: seq<Command>, ghost w: World)
      returns (replies: seq<Option<Reply>>)
    requires LaidOut(files) && LoopHead(c, Flat(files), w) && w.queued == cmds
    modifies files
    ensures LaidOut(files) && Ready(c, w.sh.s) && Verified(c, w.sh.s, Flat(files)) && |replies| == |cmds|
    ensures forall id :: id in w.sh.handles && id in w.sent ==>
      w.sent[id] < |cmds| && Answered(c, w.sh.s, Flat(files), w.sh.handles[id], replies[w.sent[id]])
  {
    ghost var disk := Flat(files);
    HeadIsAddressable(c, disk, w);
    hide *;
    replies := Worker(files, cmds);
    assert |replies| == |cmds| by { Lengths(disk, cmds); }
    forall id | id in w.sh.handles && id in w.sent
      ensures w.sent[id] < |cmds| && Answered(c, w.sh.s, Flat(files), w.sh.handles[id], replies[w.sent[id]])
    {
      TaskGetsVerified(c, disk, w, id);
    }
  }

  lemma Lengths(disk: bytes, cmds: seq<Command>)
    ensures |Execute(disk, cmds).1| == |cmds|
  {
  }

  lemma HeadIsAddressable(c: Config, disk: bytes, w: World)
    requires LoopHead(c, disk, w)
    ensures Addressable(w.queued) && Ready(c, w.sh.s) && Verified(c, w.sh.s, Execute(disk, w.queued).0)
  {
    hide BooksSettled, TasksOk;
  }

  lemma TaskGetsVerified(c: Config, disk: bytes, w: World, id: nat)
    requires LoopHead(c, disk, w) && id in w.sh.handles && id in w.sent && Ready(c, w.sh.s)
    ensures w.sent[id] < |w.queued|
    ensures Answered(c, w.sh.s, Execute(disk, w.queued).0, w.sh.handles[id], Execute(disk, w.queued).1[w.sent[id]])
  {
    var k, r, store := w.sent[id], w.sh.handles[id], Execute(disk, w.queued).0;
    hide Inv, Ready, Verified, StorageOffset, Execute, ReadsAt, VerifiedUpload;
    assert ReadsAt(c.metainfo, disk, w.queued, k, r);
    TaskIsAnswered(c.metainfo, disk, w.queued, k, r);
    ReadHasAddress(c.metainfo, disk, w.queued, k, r);
    PendingHasAddress(c, w.sh.s, r);
    ReadIsVerified(c, w.sh.s, store, r, Clip(store, StorageOffset(c.metainfo, r).value, r.len));
  }
}
