/** Multi-file storage as one flat array of bytes (disk_storage.rs). */
module DiskStorages {
  import opened Wrappers
  import opened Bytes
  import opened Peers
  import opened Torrents

  // ---- A flat store ----

  /** The part of `[offset, offset + len)` that lies inside `s`. */
  function Clip(s: bytes, offset: nat, len: nat): bytes {
    if offset >= |s| then [] else if offset + len <= |s| then s[offset..offset + len] else s[offset..]
  }

  /** `s` with `data` laid over it at `offset`; what would fall outside is dropped. */
  function Overlay(s: bytes, offset: nat, data: bytes): (r: bytes)
    ensures |r| == |s|
  {
    seq(|s|, p requires 0 <= p < |s| => if offset <= p < offset + |data| then data[p - offset] else s[p])
  }

  /** A write inside the store changes exactly its range. */
  lemma OverlayInRange(s: bytes, offset: nat, data: bytes)
    requires offset + |data| <= |s|
    ensures Overlay(s, offset, data) == s[..offset] + data + s[offset + |data|..]
    ensures Clip(Overlay(s, offset, data), offset, |data|) == data
  {
  }

  /** Ranges that a write does not meet read the same before and after. */
  lemma OverlayElsewhere(s: bytes, offset: nat, data: bytes, from: nat, len: nat)
    requires from + len <= offset || offset + |data| <= from
    ensures Clip(Overlay(s, offset, data), from, len) == Clip(s, from, len)
  {
    var t := Overlay(s, offset, data);
    forall p | 0 <= p < |Clip(s, from, len)| ensures Clip(t, from, len)[p] == Clip(s, from, len)[p] {
      assert t[from + p] == s[from + p];
    }
  }

  // ---- Several files one after the other ----

  function Concat(cs: seq<bytes>): bytes {
    if cs == [] then [] else Concat(cs[..|cs| - 1]) + cs[|cs| - 1]
  }

  function Start(cs: seq<bytes>, i: nat): nat
    requires i <= |cs|
  {
    |Concat(cs[..i])|
  }

  /** One file's share of a write: its bytes lie at `start` in the torrent. */
  function Share(c: bytes, start: nat, offset: nat, data: bytes): bytes {
    seq(|c|, k requires 0 <= k < |c| =>
      if offset <= start + k < offset + |data| then data[start + k - offset] else c[k])
  }

  lemma StartNext(cs: seq<bytes>, i: nat)
    requires i < |cs|
    ensures Start(cs, i + 1) == Start(cs, i) + |cs[i]| && Concat(cs[..i + 1]) == Concat(cs[..i]) + cs[i]
  {
    assert cs[..i + 1][..i] == cs[..i];
  }

  /** Writing every file's share is writing to the concatenation. */
  lemma {:induction false} SharesOverlay(cs: seq<bytes>, ds: seq<bytes>, offset: nat, data: bytes)
    requires |ds| == |cs| && forall i :: 0 <= i < |cs| ==> ds[i] == Share(cs[i], Start(cs, i), offset, data)
    ensures Concat(ds) == Overlay(Concat(cs), offset, data)
  {
    if cs != [] {
      var n := |cs| - 1;
      forall i | 0 <= i < n ensures ds[..n][i] == Share(cs[..n][i], Start(cs[..n], i), offset, data) {
        assert cs[..n][..i] == cs[..i];
      }
      SharesOverlay(cs[..n], ds[..n], offset, data);
      OverlayAppend(Concat(cs[..n]), cs[n], offset, data);
    }
  }

  lemma OverlayAppend(s: bytes, c: bytes, offset: nat, data: bytes)
    ensures Overlay(s + c, offset, data) == Overlay(s, offset, data) + Share(c, |s|, offset, data)
  {
  }

  function Max(a: nat, b: nat): nat { if a < b then b else a }

  function Min(a: nat, b: nat): nat { if a < b then a else b }

  /** One file's share of a read. */
  function Part(c: bytes, start: nat, offset: nat, len: nat): bytes {
    if offset + len <= start || start + |c| <= offset || len == 0 then []
    else c[Max(offset, start) - start..Min(offset + len, start + |c|) - start]
  }

  lemma ClipAppend(s: bytes, c: bytes, offset: nat, len: nat)
    ensures Clip(s + c, offset, len) == Clip(s, offset, len) + Part(c, |s|, offset, len)
  {
    var whole, head, tail := Clip(s + c, offset, len), Clip(s, offset, len), Part(c, |s|, offset, len);
    assert |whole| == |head| + |tail|;
    forall p | 0 <= p < |whole| ensures whole[p] == (head + tail)[p] {
      assert whole[p] == (s + c)[offset + p];
    }
  }

  // ---- The files ----

  /** One open file, whose length was set when it was opened. */
  class OutputFile {
    var content: bytes
    const length: nat
    const offset: nat

    constructor (content: bytes, offset: nat)
      ensures this.content == content && length == |content| && this.offset == offset
    {
      this.content, this.length, this.offset := content, |content|, offset;
    }

    /** `write_at`: seek, then write everything. */
    method WriteAt(at: nat, data: bytes)
      requires at + |data| <= |content|
      modifies this
      ensures content == Splice(old(content), at, data)
    {
      content := content[..at] + data + content[at + |data|..];
    }

    /** `read_from`: seek, then read up to `len` bytes. */
    method ReadFrom(at: nat, len: nat) returns (r: bytes)
      requires at <= |content|
      ensures r == if at + len <= |content| then content[at..at + len] else content[at..]
    {
      r := if at + len <= |content| then content[at..at + len] else content[at..];
    }
  }

  function Contents(files: seq<OutputFile>): (cs: seq<bytes>)
    reads files
    ensures |cs| == |files| && forall i :: 0 <= i < |files| ==> cs[i] == files[i].content
  {
    seq(|files|, i requires 0 <= i < |files| reads files => files[i].content)
  }

  /** The files follow one another without gaps, and fit in 64-bit offsets. */
  ghost predicate LaidOut(files: seq<OutputFile>)
    reads files
  {
    && (forall i, j :: 0 <= i < j < |files| ==> files[i] != files[j])
    && (forall i :: 0 <= i < |files| ==> |files[i].content| == files[i].length)
    && (forall i :: 0 <= i < |files| ==> files[i].offset == Start(Contents(files), i))
    && |Concat(Contents(files))| < U64_LIMIT
  }

  function Flat(files: seq<OutputFile>): bytes
    reads files
  {
    Concat(Contents(files))
  }

  function Splice(c: bytes, at: nat, data: bytes): (r: bytes)
    requires at + |data| <= |c|
    ensures |r| == |c|
    ensures forall k :: 0 <= k < |c| ==> r[k] == if at <= k < at + |data| then data[k - at] else c[k]
  {
    c[..at] + data + c[at + |data|..]
  }

  /** The piece of a write that one file takes is that file's share. */
  lemma WrittenIsShare(c: bytes, start: nat, offset: nat, data: bytes)
    requires offset < start + |c| && start < offset + |data|
    ensures var from := Max(offset, start); var to := Min(offset + |data|, start + |c|);
      Share(c, start, offset, data) == Splice(c, from - start, data[from - offset..to - offset])
  {
    var from := Max(offset, start);
    var to := Min(offset + |data|, start + |c|);
    var written := Splice(c, from - start, data[from - offset..to - offset]);
    forall k | 0 <= k < |c| ensures Share(c, start, offset, data)[k] == written[k] {
    }
  }

  lemma UntouchedShare(c: bytes, start: nat, offset: nat, data: bytes)
    requires offset >= start + |c| || offset + |data| <= start
    ensures Share(c, start, offset, data) == c
  {
  }

  lemma StartInside(cs: seq<bytes>, i: nat)
    requires i < |cs|
    ensures Start(cs, i) + |cs[i]| <= |Concat(cs)|
    decreases |cs| - i
  {
    StartNext(cs, i);
    if i + 1 == |cs| {
      assert cs[..i + 1] == cs;
    } else {
      StartInside(cs, i + 1);
    }
  }

  lemma SharesSameStarts(cs: seq<bytes>, ds: seq<bytes>, i: nat)
    requires |cs| == |ds| && i <= |cs| && forall j :: 0 <= j < |cs| ==> |cs[j]| == |ds[j]|
    ensures Start(cs, i) == Start(ds, i)
  {
    if i > 0 {
      StartNext(cs, i - 1);
      StartNext(ds, i - 1);
      SharesSameStarts(cs, ds, i - 1);
    }
  }

  /** What `write_to_files` does to one file. */
  method WriteShare(file: OutputFile, offset: nat, data: bytes)
    requires |file.content| == file.length
    modifies file
    ensures file.content == Share(old(file.content), file.offset, offset, data)
  {
    var fileEnd := file.offset + file.length;
    var writeEnd := offset + |data|;
    if offset >= fileEnd || writeEnd <= file.offset {
      UntouchedShare(file.content, file.offset, offset, data);
      return;
    }
    WrittenIsShare(file.content, file.offset, offset, data);
    var from, to := Max(offset, file.offset), Min(writeEnd, fileEnd);
    hide Share, Splice;
    file.WriteAt(from - file.offset, data[from - offset..to - offset]);
  }

  /** `write_to_files` writes to the flat array: exactly the bytes of the range inside it change. */
  method WriteToFiles(files: seq<OutputFile>, offset: nat, data: bytes)
    requires LaidOut(files) && offset + |data| < U64_LIMIT
    modifies files
    ensures LaidOut(files) && Flat(files) == Overlay(old(Flat(files)), offset, data)
  {
    ghost var before := Contents(files);
    hide Share, Start, Concat;
    for i := 0 to |files|
      invariant forall j :: 0 <= j < i ==> files[j].content == Share(before[j], Start(before, j), offset, data)
      invariant forall j :: i <= j < |files| ==> files[j].content == before[j]
    {
      WriteShare(files[i], offset, data);
    }
    SharesLaidOut(files, before, offset, data);
  }

  lemma SharesLaidOut(files: seq<OutputFile>, before: seq<bytes>, offset: nat, data: bytes)
    requires |before| == |files| && |Concat(before)| < U64_LIMIT
    requires forall i, j :: 0 <= i < j < |files| ==> files[i] != files[j]
    requires forall i :: 0 <= i < |files| ==> |before[i]| == files[i].length && files[i].offset == Start(before, i)
    requires forall i :: 0 <= i < |files| ==> files[i].content == Share(before[i], Start(before, i), offset, data)
    ensures LaidOut(files) && Flat(files) == Overlay(Concat(before), offset, data)
  {
    SharesOverlay(before, Contents(files), offset, data);
    hide Start, Concat;
    forall i | 0 <= i < |files| ensures files[i].offset == Start(Contents(files), i) {
      SharesSameStarts(before, Contents(files), i);
    }
  }

  /** What `read_from_files` takes from one file: none at all if the range does not meet it. */
  method ReadShare(file: OutputFile, offset: nat, len: nat, buffer: bytes) returns (r: bytes, full: bool)
    requires |file.content| == file.length
    ensures full && r == buffer + Part(file.content, file.offset, offset, len)
  {
    var start, end := Max(offset, file.offset), Min(offset + len, file.offset + file.length);
    if start >= end {
      return buffer, true;
    }
    var read := file.ReadFrom(start - file.offset, end - start);
    return buffer + read, |read| == end - start;
  }

  /** `read_from_files` reads the flat array; only an overflowing range is an error. */
  method ReadFromFiles(files: seq<OutputFile>, offset: nat, len: nat) returns (r: Option<bytes>)
    requires LaidOut(files)
    ensures r == if offset + len < U64_LIMIT then Some(Clip(Flat(files), offset, len)) else None
  {
    if offset + len >= U64_LIMIT {
      return None;
    }
    var buffer: bytes := [];
    ghost var cs := Contents(files);
    hide Concat, Clip, Start, Part;
    NothingRead(cs, offset, len);
    for i := 0 to |files|
      invariant buffer == Clip(Concat(cs[..i]), offset, len)
    {
      ReadMore(cs, i, offset, len);
      if files[i].offset + files[i].length >= U64_LIMIT {
        return None;
      }
      var full;
      buffer, full := ReadShare(files[i], offset, len, buffer);
      if !full {
        break;
      }
    }
    assert cs[..|files|] == cs;
    return Some(buffer);
  }

  lemma NothingRead(cs: seq<bytes>, offset: nat, len: nat)
    ensures Clip(Concat(cs[..0]), offset, len) == []
  {
  }

  lemma ReadMore(cs: seq<bytes>, i: nat, offset: nat, len: nat)
    requires i < |cs|
    ensures Start(cs, i) + |cs[i]| <= |Concat(cs)|
    ensures Clip(Concat(cs[..i + 1]), offset, len)
        == Clip(Concat(cs[..i]), offset, len) + Part(cs[i], Start(cs, i), offset, len)
  {
    hide Clip, Concat, Part;
    StartInside(cs, i);
    StartNext(cs, i);
    ClipAppend(Concat(cs[..i]), cs[i], offset, len);
  }

  /** The lengths `create_files` opens, in order. */
  function FileLengths(m: Metainfo): seq<nat> {
    match m.mode
    case Single(length) => [length]
    case Multiple(lengths) => lengths
  }

  ghost predicate HasLengths(cs: seq<bytes>, lengths: seq<nat>) {
    |cs| == |lengths| && forall i :: 0 <= i < |cs| ==> |cs[i]| == lengths[i]
  }

  lemma {:induction false} SumAppend(xs: seq<nat>, x: nat)
    ensures Sum(xs + [x]) == Sum(xs) + x
  {
    if xs != [] {
      assert (xs + [x])[1..] == xs[1..] + [x];
      SumAppend(xs[1..], x);
    }
  }

  lemma {:induction false} ConcatLength(cs: seq<bytes>, lengths: seq<nat>)
    requires HasLengths(cs, lengths)
    ensures |Concat(cs)| == Sum(lengths)
  {
    if cs != [] {
      var n := |cs| - 1;
      ConcatLength(cs[..n], lengths[..n]);
      SumAppend(lengths[..n], lengths[n]);
      assert lengths[..n] + [lengths[n]] == lengths;
    }
  }

  /**
   * `create_files` opens each file at the running offset. The files end up laid out without gaps and
   * hold as many bytes as the torrent, whatever was in them and however many are empty.
   */
  method CreateFiles(m: Metainfo, existing: seq<bytes>) returns (files: seq<OutputFile>)
    requires TotalSize(m) < U64_LIMIT && HasLengths(existing, FileLengths(m))
    ensures fresh(files) && LaidOut(files) && Contents(files) == existing
    ensures |Flat(files)| == TotalSize(m)
  {
    files := [];
    var offset := 0;
    hide *;
    NothingBefore(existing);
    for i := 0 to |existing|
      invariant |files| == i && fresh(files) && offset == Start(existing, i)
      invariant forall j, k :: 0 <= j < k < i ==> files[j] != files[k]
      invariant forall j :: 0 <= j < i ==> files[j].content == existing[j] && files[j].length == |existing[j]|
      invariant forall j :: 0 <= j < i ==> files[j].offset == Start(existing, j)
    {
      StartNext(existing, i);
      var file := new OutputFile(existing[i], offset);
      files := files + [file];
      offset := offset + file.length;
    }
    OpenedLaidOut(m, files, existing);
  }

  lemma NothingBefore(cs: seq<bytes>)
    ensures Start(cs, 0) == 0
  {
  }

  lemma OpenedLaidOut(m: Metainfo, files: seq<OutputFile>, existing: seq<bytes>)
    requires TotalSize(m) < U64_LIMIT && HasLengths(existing, FileLengths(m)) && |files| == |existing|
    requires forall j, k :: 0 <= j < k < |files| ==> files[j] != files[k]
    requires forall j :: 0 <= j < |files| ==> files[j].content == existing[j] && files[j].length == |existing[j]|
    requires forall j :: 0 <= j < |files| ==> files[j].offset == Start(existing, j)
    ensures LaidOut(files) && Contents(files) == existing && |Flat(files)| == TotalSize(m)
  {
    hide Start;
    assert Contents(files) == existing;
    ConcatLength(existing, FileLengths(m));
    SumOfModes(m);
  }

  lemma SumOfModes(m: Metainfo)
    ensures Sum(FileLengths(m)) == TotalSize(m)
  {
    if m.mode.Single? {
      assert FileLengths(m)[1..] == [];
    }
  }

  // ---- Addresses ----

  /** `storage_offset`, with the overflow checks of the source. */
  function StorageOffset(m: Metainfo, range: BlockRange): Option<nat> {
    if range.pieceOffset + range.len >= U64_LIMIT then None
    else if range.pieceIndex >= |m.pieces| || range.len == 0 || range.pieceOffset + range.len > m.pieceLength then None
    else
      var start := range.pieceIndex * m.pieceLength;
      if start + range.pieceOffset >= U64_LIMIT then None
      else if start + range.pieceOffset + range.len >= U64_LIMIT then None
      else if start + range.pieceOffset + range.len > TotalSize(m) then None
      else Some(start + range.pieceOffset)
  }

  /**
   * A range has an address exactly when it is a non-empty part of a piece, and then it lies in that piece's interval.
   */
  lemma StorageOffsetIff(m: Metainfo, range: BlockRange)
    requires Coherent(m)
    ensures StorageOffset(m, range).Some? <==>
      range.pieceIndex < |m.pieces| && 0 < range.len && range.pieceOffset + range.len <= PieceLen(m, range.pieceIndex)
    ensures StorageOffset(m, range).Some? ==>
      StorageOffset(m, range).value == PieceStart(m, range.pieceIndex) + range.pieceOffset
  {
    if range.pieceIndex < |m.pieces| {
      PieceInterval(m, range.pieceIndex);
    }
  }

  /** Ranges of different pieces never share an address. */
  lemma AddressesDisjoint(m: Metainfo, a: BlockRange, b: BlockRange)
    requires Coherent(m) && StorageOffset(m, a).Some? && StorageOffset(m, b).Some? && a.pieceIndex != b.pieceIndex
    ensures StorageOffset(m, a).value + a.len <= StorageOffset(m, b).value
         || StorageOffset(m, b).value + b.len <= StorageOffset(m, a).value
  {
    StorageOffsetIff(m, a);
    StorageOffsetIff(m, b);
    PiecesDisjoint(m, if a.pieceIndex < b.pieceIndex then a.pieceIndex else b.pieceIndex,
                   if a.pieceIndex < b.pieceIndex then b.pieceIndex else a.pieceIndex);
  }

  // ---- The command queue ----

  datatype Command = Write(offset: nat, data: bytes) | Read(offset: nat, len: nat, closed: bool) | Flush

  datatype Reply = ReadReply(data: bytes) | ReadOverflow | Flushed

  /** What the worker answers to one command, on that command's own reply channel. */
  function Answer(store: bytes, cmd: Command): Option<Reply> {
    match cmd
    case Write(_, _) => None
    case Read(offset, len, closed) =>
      if closed then None
      else Some(if offset + len < U64_LIMIT then ReadReply(Clip(store, offset, len)) else ReadOverflow)
    case Flush => Some(Flushed)
  }

  /** A flat store that executes commands one after the other, and its answer to each. */
  function Execute(store: bytes, cmds: seq<Command>): (r: (bytes, seq<Option<Reply>>))
    ensures |r.1| == |cmds|
  {
    if cmds == [] then (store, [])
    else
      var (before, replies) := Execute(store, cmds[..|cmds| - 1]);
      var cmd := cmds[|cmds| - 1];
      (if cmd.Write? then Overlay(before, cmd.offset, cmd.data) else before, replies + [Answer(before, cmd)])
  }

  /**
   * A command is answered from what the commands before it have stored, whatever is queued after it: a read somebody
   * still waits for with its range, or with an error if that passes 64-bit offsets, and a flush with its completion.
   */
  lemma {:induction false} AnswerAt(store: bytes, cmds: seq<Command>, k: nat)
    requires k < |cmds|
    ensures Execute(store, cmds).1[k] == Answer(Execute(store, cmds[..k]).0, cmds[k])
    ensures match cmds[k]
      case Write(_, _) => Execute(store, cmds).1[k] == None
      case Read(offset, len, closed) =>
        Execute(store, cmds).1[k]
          == if closed then None
             else if offset + len >= 0x1_0000_0000_0000_0000 then Some(ReadOverflow)
             else Some(ReadReply(Clip(Execute(store, cmds[..k]).0, offset, len)))
      case Flush => Execute(store, cmds).1[k] == Some(Flushed)
    decreases |cmds|
  {
    if k < |cmds| - 1 {
      assert cmds[..|cmds| - 1][..k] == cmds[..k];
      AnswerAt(store, cmds[..|cmds| - 1], k);
    }
  }

  /** Every write was given an address, so that it ends within 64-bit offsets. */
  ghost predicate Addressable(cmds: seq<Command>) {
    forall i :: 0 <= i < |cmds| && cmds[i].Write? ==> cmds[i].offset + |cmds[i].data| < U64_LIMIT
  }

  /** One turn of the worker's loop. */
  method Serve(files: seq<OutputFile>, cmd: Command) returns (reply: Option<Reply>)
    requires LaidOut(files) && (cmd.Write? ==> cmd.offset + |cmd.data| < U64_LIMIT)
    modifies files
    ensures LaidOut(files) && reply == Answer(old(Flat(files)), cmd)
    ensures Flat(files) == if cmd.Write? then Overlay(old(Flat(files)), cmd.offset, cmd.data) else old(Flat(files))
  {
    hide LaidOut, Flat, Overlay, Clip;
    reply := None;
    match cmd {
      case Write(offset, data) => WriteToFiles(files, offset, data);
      case Read(offset, len, closed) =>
        if !closed {
          var r := ReadFromFiles(files, offset, len);
          reply := Some(if r.Some? then ReadReply(r.value) else ReadOverflow);
        }
      case Flush => reply := Some(Flushed);
    }
  }

  /** `worker`: the files behave as the flat store, command by command. */
  method Worker(files: seq<OutputFile>, cmds: seq<Command>) returns (replies: seq<Option<Reply>>)
    requires LaidOut(files) && Addressable(cmds)
    modifies files
    ensures LaidOut(files) && (Flat(files), replies) == Execute(old(Flat(files)), cmds)
  {
    replies := [];
    ghost var start := Flat(files);
    hide LaidOut, Flat, Overlay, Answer;
    for i := 0 to |cmds|
      invariant LaidOut(files) && (Flat(files), replies) == Execute(start, cmds[..i])
    {
      assert cmds[..i + 1][..i] == cmds[..i];
      var reply := Serve(files, cmds[i]);
      replies := replies + [reply];
    }
    assert cmds[..|cmds|] == cmds;
  }

  /** The handle the swarm holds: it checks ranges and queues commands. */
  class DiskStorage {
    const metainfo: Metainfo
    var queued: seq<Command>

    constructor (metainfo: Metainfo)
      ensures this.metainfo == metainfo && queued == []
    {
      this.metainfo, queued := metainfo, [];
    }

    method Write(range: BlockRange, data: bytes) returns (ok: bool)
      modifies this
      ensures ok <==> |data| == range.len && StorageOffset(metainfo, range).Some?
      ensures queued == old(queued) + if ok then [Command.Write(StorageOffset(metainfo, range).value, data)] else []
    {
      if |data| != range.len {
        return false;
      }
      var offset := StorageOffset(metainfo, range);
      if offset == None {
        return false;
      }
      queued := queued + [Command.Write(offset.value, data)];
      return true;
    }

    method Read(range: BlockRange) returns (ok: bool)
      modifies this
      ensures ok <==> StorageOffset(metainfo, range).Some?
      ensures queued
          == old(queued) + if ok then [Command.Read(StorageOffset(metainfo, range).value, range.len, false)] else []
    {
      var offset := StorageOffset(metainfo, range);
      if offset == None {
        return false;
      }
      queued := queued + [Command.Read(offset.value, range.len, false)];
      return true;
    }

    method Flush()
      modifies this
      ensures queued == old(queued) + [Command.Flush]
    {
      queued := queued + [Command.Flush];
    }
  }

  lemma {:induction false} ExecuteLength(store: bytes, cmds: seq<Command>)
    ensures |Execute(store, cmds).0| == |store|
  {
    if cmds != [] {
      ExecuteLength(store, cmds[..|cmds| - 1]);
    }
  }

  /** Commands of other pieces, queued after a write, leave what it wrote in place. */
  lemma {:induction false} WriteSurvives(store: bytes, cmds: seq<Command>, offset: nat, data: bytes)
    requires offset + |data| <= |store| && Clip(store, offset, |data|) == data
    requires forall i :: 0 <= i < |cmds| && cmds[i].Write? ==>
      cmds[i].offset + |cmds[i].data| <= offset || offset + |data| <= cmds[i].offset
    ensures Clip(Execute(store, cmds).0, offset, |data|) == data
  {
    if cmds != [] {
      var n := |cmds| - 1;
      WriteSurvives(store, cmds[..n], offset, data);
      if cmds[n].Write? {
        OverlayElsewhere(Execute(store, cmds[..n]).0, cmds[n].offset, cmds[n].data, offset, |data|);
      }
    }
  }

  lemma {:induction false} ExecuteAppend(store: bytes, xs: seq<Command>, ys: seq<Command>)
    ensures Execute(store, xs + ys).0 == Execute(Execute(store, xs).0, ys).0
  {
    if ys == [] {
      assert xs + ys == xs;
    } else {
      assert (xs + ys)[..|xs + ys| - 1] == xs + ys[..|ys| - 1];
      ExecuteAppend(store, xs, ys[..|ys| - 1]);
    }
  }

  /**
   * A read queued after a write returns what was written, for every queue before, between and for
   * every later command that does not write to the same addresses.
   */
  lemma ReadAfterWrite(store: bytes, before: seq<Command>, between: seq<Command>, offset: nat, data: bytes)
    requires offset + |data| <= |store| && offset + |data| < U64_LIMIT
    requires forall i :: 0 <= i < |between| && between[i].Write? ==>
      between[i].offset + |between[i].data| <= offset || offset + |data| <= between[i].offset
    ensures var cmds := before + [Command.Write(offset, data)] + between + [Command.Read(offset, |data|, false)];
      var replies := Execute(store, cmds).1;
      replies[|cmds| - 1] == Some(ReadReply(data))
  {
    var written := before + [Command.Write(offset, data)];
    var cmds := written + between + [Command.Read(offset, |data|, false)];
    assert cmds[..|cmds| - 1] == written + between && written[..|written| - 1] == before;
    ExecuteLength(store, before);
    OverlayInRange(Execute(store, before).0, offset, data);
    ExecuteAppend(store, written, between);
    WriteSurvives(Execute(store, written).0, between, offset, data);
  }
}
