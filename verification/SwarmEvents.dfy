/** What goes into and comes out of the swarm state machine (swarm.rs). */
module SwarmEvents {
  import opened Bytes
  import opened Peers
  import opened Messages

  datatype SwarmStatus = Active | Stopped | DownloadOnly | UploadOnly
  {
    predicate Downloads() { Active? || DownloadOnly? }

    predicate Uploads() { Active? || UploadOnly? }
  }

  datatype Tick = BlockTick | PexTick

  datatype Input =
    | PeersDiscovered(addrs: seq<SocketAddr>)
    | PeerConnected(id: PeerId, direction: ConnectionDirection, addr: SocketAddr, extensions: PeerExtensions)
    | PeerDisconnected(addr: SocketAddr)
    | MessageReceived(addr: SocketAddr, message: Message)
    | LocalPiece(piece: nat, data: bytes)
    | UploadReadCompleted(readId: nat, range: BlockRange, data: bytes)
    | SetStatus(status: SwarmStatus)
    | OnTick(tick: Tick)

  datatype Output =
    | ConnectPeer(addr: SocketAddr)
    | DisconnectPeer(addr: SocketAddr)
    | SendToPeer(addr: SocketAddr, message: Message)
    | WritePiece(range: BlockRange, data: bytes)
    | ReadForUpload(readId: nat, range: BlockRange)
    | CancelUploadRead(readId: nat)
    | Broadcast(message: Message)
    | Completed
}
