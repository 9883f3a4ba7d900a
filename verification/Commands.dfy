/** The FETCH and PACKAGES branches of the command loop in src/btide.c. */
module Commands {
  import opened Bytes
  import opened Digests
  import opened Sha256
  import opened Merkle
  import opened Lookup
  import opened Queries
  import opened Verification
  import opened PackageQueries
  import opened Packets
  import opened Splitting
  import opened Protocol
  import opened Handlers

  datatype FetchResult = NotConnected | NotManaged | NoSuchChunk | SendTo(entry: nat, packet: Packet)

  /** What FETCH sends is the step of the protocol of that name, with an offset or without. */
  lemma FetchIsStep(p: Package, s: State, l: Link, ident: seq<byte>, w: Want)
    requires l in s.channels && l.from < |s.peers| && Manages(p, s.peers[l.from], ident)
    requires FirstChunk(p, w.hash, 0).Some?
    requires var a := FetchAsk(p, w); ReqFields(ident, a.hash, a.len, a.offset)
    ensures FetchStep(p, s, l, ident, w, Sent(s, l, Request(ident, FetchAsk(p, w))))
  {
    hide FirstChunk, Request, SameIdent;
  }

  /** The first entry for an address counts, and it must be marked connected. */
  method CheckConnected(conns: seq<Connection>, ip: seq<byte>, port: nat) returns (connected: bool, entry: nat)
    ensures entry == EntryOf(conns, ip, port)
    ensures connected <==> entry < |conns| && conns[entry].connected
  {
    for i := 0 to |conns|
      invariant EntryOf(conns, ip, port) == i + EntryOf(conns[i..], ip, port)
    {
      if conns[i].ip == ip && conns[i].port == port {
        return conns[i].connected, i;
      }
    }
    return false, |conns|;
  }

  /** The part of a hash argument that is compared and sent: its first sixty-four characters. */
  function HashKey(hash: seq<byte>): (key: Hash)
    ensures |hash| <= HASH_LEN ==> key == hash
    ensures |hash| > HASH_LEN ==> |key| == HASH_LEN && forall i :: 0 <= i < HASH_LEN ==> key[i] == hash[i]
  {
    if |hash| > HASH_LEN then hash[..HASH_LEN] else hash
  }

  /** Sizes and offsets as the chunks' uint32_t fields hold them, and hashes of sixty-four characters. */
  predicate Loaded(p: Package) {
    forall i {:trigger p.chunks[i]} :: 0 <= i < |p.chunks| ==>
      p.chunks[i].size < 0x1_0000_0000 && p.chunks[i].offset < 0x1_0000_0000 && |p.chunks[i].hash| == HASH_LEN
  }

  /** FETCH: asks the peer at an address for a chunk by its hash, at its own offset unless another is given. */
  method FetchCommand(p: Package, peer: Peer, conns: seq<Connection>, ip: seq<byte>, port: nat,
                      ident: seq<byte>, hash: seq<byte>, offsetArg: Option<nat>) returns (r: FetchResult)
    requires Loaded(p) && |ident| <= IDENT_LEN
    requires offsetArg.Some? ==> offsetArg.value <= NO_OFFSET
    ensures r.NotConnected? <==> !(EntryOf(conns, ip, port) < |conns| && conns[EntryOf(conns, ip, port)].connected)
    ensures r.NotManaged? <==> !r.NotConnected? && !Manages(p, peer, ident)
    ensures r.NoSuchChunk? ==> Manages(p, peer, ident) && FirstChunk(p, HashKey(hash), 0).None?
    ensures |hash| < HASH_LEN ==> !r.SendTo?
    ensures r.SendTo? ==> Manages(p, peer, ident) && r.entry == EntryOf(conns, ip, port) && FirstChunk(p, HashKey(hash), 0).Some?
    ensures r.SendTo? ==>
              var a := FetchAsk(p, Want(HashKey(hash), offsetArg));
              a.offset == (if offsetArg.Some? && offsetArg.value != NO_OFFSET then offsetArg.value
                           else p.chunks[FirstChunk(p, HashKey(hash), 0).value].offset) &&
              ReqFields(ident, a.hash, a.len, a.offset) && r.packet == Request(ident, a)
  {
    var connected, entry := CheckConnected(conns, ip, port);
    if !connected {
      return NotConnected;
    }
    if !Manages(p, peer, ident) {
      return NotManaged;
    }
    var key := HashKey(hash);
    var found := FindChunk(p, key);
    if found.None? {
      return NoSuchChunk;
    }
    var chunk := p.chunks[found.value];
    var offset := if offsetArg.Some? then offsetArg.value else NO_OFFSET;
    if offset == NO_OFFSET {
      offset := chunk.offset;
    }
    var req := GenerateReq(ident, key, chunk.size, offset);
    return SendTo(entry, req);
  }

  /** The completion test of PACKAGES for one package. */
  method PackageCompleted(obj: PackageObj, file: Option<seq<byte>>) returns (completed: bool)
    requires obj.Valid() && obj.pkg.FullTree() && obj.pkg.ReadableChunks() && |obj.pkg.hashes| > 0
    modifies (set n | n in obj.nodes)`computed
    ensures obj.Valid()
    ensures completed <==> ReportsCompleted(Sha256Hex, obj.pkg, file)
  {
    var result := obj.GetMinCompletedHashes(file);
    if |result| == 0 {
      return false;
    }
    completed := obj.pkg.hashes[0] == result[0];
  }
}
