/**
 * The transfer protocol among any number of peers that share one package: what a peer does with each
 * packet it receives, and the steps of the whole system. Packets on a connection arrive whole and in
 * order. A chunk is verified in one step, but other steps may come between the verification and each
 * RES packet sent on the strength of it.
 */
module Protocol {
  import opened Bytes
  import opened Digests
  import opened Merkle
  import opened Lookup
  import opened Verification
  import opened Packets
  import opened Splitting

  // Identifiers are compared with strncmp over twenty characters.

  predicate SameIdent(a: seq<byte>, b: seq<byte>, n: nat) {
    n == 0 || (ByteAt(a, 0) == ByteAt(b, 0) && (ByteAt(a, 0) == 0 || SameIdent(Rest(a), Rest(b), n - 1)))
  }

  function Rest(a: seq<byte>): seq<byte> {
    if a == [] then [] else a[1..]
  }

  /** No NUL among the characters before the i-th. */
  predicate NoNulBefore(a: seq<byte>, i: nat) {
    forall j :: 0 <= j < i ==> ByteAt(a, j) != 0
  }

  lemma RestAt(a: seq<byte>, i: nat)
    ensures ByteAt(Rest(a), i) == ByteAt(a, i + 1)
  {
  }

  lemma NoNulAfterFirst(a: seq<byte>, i: nat)
    requires ByteAt(a, 0) != 0
    ensures NoNulBefore(Rest(a), i) <==> NoNulBefore(a, i + 1)
  {
    forall j: nat ensures ByteAt(Rest(a), j) == ByteAt(a, j + 1) {
      RestAt(a, j);
    }
    hide ByteAt, Rest;
    if NoNulBefore(Rest(a), i) {
      forall j | 0 <= j < i + 1 ensures ByteAt(a, j) != 0 {
        if j > 0 {
          assert ByteAt(Rest(a), j - 1) != 0;
        }
      }
    }
  }

  /** Identifiers match when they agree on each of the first n characters up to and including the first NUL. */
  ghost predicate AgreeUpToNul(a: seq<byte>, b: seq<byte>, n: nat) {
    forall i: nat :: i < n && NoNulBefore(a, i) ==> ByteAt(a, i) == ByteAt(b, i)
  }

  lemma {:induction false} SameIdentIff(a: seq<byte>, b: seq<byte>, n: nat)
    ensures SameIdent(a, b, n) <==> AgreeUpToNul(a, b, n)
    decreases n
  {
    if n > 0 {
      assert NoNulBefore(a, 0);
      if ByteAt(a, 0) == ByteAt(b, 0) {
        if ByteAt(a, 0) == 0 {
          forall i: nat | i < n && NoNulBefore(a, i) ensures ByteAt(a, i) == ByteAt(b, i) {
            assert i == 0;
          }
        } else {
          SameIdentIff(Rest(a), Rest(b), n - 1);
          AgreeAfterFirst(a, b, n);
        }
      }
    }
  }

  lemma AgreeAfterFirst(a: seq<byte>, b: seq<byte>, n: nat)
    requires n > 0 && ByteAt(a, 0) == ByteAt(b, 0) != 0
    ensures AgreeUpToNul(Rest(a), Rest(b), n - 1) <==> AgreeUpToNul(a, b, n)
  {
    forall i: nat
      ensures ByteAt(Rest(a), i) == ByteAt(a, i + 1) && ByteAt(Rest(b), i) == ByteAt(b, i + 1)
      ensures NoNulBefore(Rest(a), i) <==> NoNulBefore(a, i + 1)
    {
      RestAt(a, i);
      RestAt(b, i);
      NoNulAfterFirst(a, i);
    }
    hide ByteAt, Rest, NoNulBefore;
    if AgreeUpToNul(Rest(a), Rest(b), n - 1) {
      forall i: nat | i < n && NoNulBefore(a, i) ensures ByteAt(a, i) == ByteAt(b, i) {
        if i > 0 {
          assert ByteAt(Rest(a), i - 1) == ByteAt(a, i - 1 + 1);
        }
      }
    }
    if AgreeUpToNul(a, b, n) {
      forall i: nat | i < n - 1 && NoNulBefore(Rest(a), i) ensures ByteAt(Rest(a), i) == ByteAt(Rest(b), i) {
        assert ByteAt(a, i + 1) == ByteAt(b, i + 1);
      }
    }
  }

  /** A peer: the computed hashes of the package if it manages it, and its data file if there is one. */
  datatype Peer = Peer(cache: Option<seq<Hash>>, file: Option<seq<byte>>)

  predicate Manages(p: Package, peer: Peer, ident: seq<byte>) {
    peer.cache.Some? && SameIdent(p.ident, ident, 20)
  }

  /** The send loop of one handler thread: what is left to send of a range. */
  datatype Job = Job(offset: nat, left: int, hash: seq<byte>, ident: seq<byte>)

  /**
   * The outcome of a REQ. Crash stands for what C leaves undefined: the two places where the code would
   * follow a null pointer, which are a hash that no node carries and a data file that is gone although the
   * chunk counts as complete, and a range beyond what an int holds.
   */
  datatype Answer = Refuse | Serve(job: Job) | Crash

  ghost predicate CacheFits(p: Package, peer: Peer) {
    peer.cache.Some? ==> |peer.cache.value| == 2 * |p.hashes| + 1
  }

  /** The peer after it has checked its file. */
  function Checked(H: Digester, p: Package, peer: Peer): (r: Peer)
    requires p.FullTree() && CacheFits(p, peer)
    ensures r.file == peer.file && (r.cache.Some? <==> peer.cache.Some?) && CacheFits(p, r)
  {
    if peer.cache.None? then peer else peer.(cache := Some(AfterVerify(H, p, peer.file, peer.cache.value)))
  }

  /** The range of a request as the ints of the send loop hold it. An empty or negative length sends nothing. */
  predicate IntRange(offset: nat, len: nat) {
    offset < 0x1_0000_0000 && len < 0x1_0000_0000 && (ToInt32(len) <= 0 || offset + len < 0x8000_0000)
  }

  /** generate_and_send_RES up to its send loop. */
  function AnswerReq(H: Digester, p: Package, peer: Peer, pl: seq<byte>): (r: Answer)
    requires p.FullTree() && CacheFits(p, peer) && |pl| == PAYLOAD_MAX
    ensures r.Serve? ==> peer.file.Some? && Sendable(r.job.offset, r.job.hash, r.job.ident)
    ensures r.Serve? && r.job.left > 0 ==> r.job.offset + r.job.left < 0x8000_0000
  {
    if !Manages(p, peer, ReqIdent(pl)) then Refuse
    else
      var k := FindFrom(|p.hashes|, p.Expected(), ReqHash(pl), 0);
      if k.None? then Crash
      else if Checked(H, p, peer).cache.value[k.value] != p.Expected()[k.value] then Refuse
      else if peer.file.None? || !IntRange(ReqOffset(pl), ReqLen(pl)) then Crash
      else Serve(Job(ReqOffset(pl), ToInt32(ReqLen(pl)), ReqHash(pl), ReqIdent(pl)))
  }

  function AfterReq(H: Digester, p: Package, peer: Peer, pl: seq<byte>): (r: Peer)
    requires p.FullTree() && CacheFits(p, peer) && |pl| == PAYLOAD_MAX
    ensures r.file == peer.file && (r.cache.Some? <==> peer.cache.Some?) && CacheFits(p, r)
  {
    if Manages(p, peer, ReqIdent(pl)) then Checked(H, p, peer) else peer
  }

  /**
   * Another package is left alone: if the identifier differs from that of the managed package in one of the
   * first twenty characters, before a NUL, then a REQ is refused and nothing is checked for it, a RES changes
   * nothing, and the package does not count as managed.
   */
  lemma OtherPackageIsLeftAlone(H: Digester, p: Package, peer: Peer, pl: seq<byte>, error: nat, x: nat)
    requires p.FullTree() && CacheFits(p, peer) && |pl| == PAYLOAD_MAX && x < 20 && NoNulBefore(p.ident, x)
    ensures ByteAt(p.ident, x) != ByteAt(ReqIdent(pl), x) ==>
              AnswerReq(H, p, peer, pl) == Refuse && AfterReq(H, p, peer, pl) == peer
    ensures ByteAt(p.ident, x) != ByteAt(ResIdent(pl), x) ==>
              AfterRes(p, peer, Packet(PKT_MSG_RES, error, pl)) == peer
    ensures forall ident :: ByteAt(p.ident, x) != ByteAt(ident, x) ==> !Manages(p, peer, ident)
  {
    hide ReqIdent, ResIdent, SameIdent, ByteAt;
    forall ident | ByteAt(p.ident, x) != ByteAt(ident, x) ensures !Manages(p, peer, ident) {
      SameIdentIff(p.ident, ident, 20);
    }
  }

  /** And the one managed counts as managed by any identifier that agrees with its own so far. */
  lemma OwnPackageIsManaged(p: Package, peer: Peer, ident: seq<byte>)
    requires peer.cache.Some? && AgreeUpToNul(p.ident, ident, 20)
    ensures Manages(p, peer, ident)
  {
    SameIdentIff(p.ident, ident, 20);
  }

  /** bpkg_file_check: a missing file is created, zero-filled to the size of the package. */
  function FileCheck(p: Package, file: Option<seq<byte>>): seq<byte> {
    if file.None? then Zeros(p.size) else file.value
  }

  /** What a RES does to a peer. */
  function AfterRes(p: Package, peer: Peer, packet: Packet): (r: Peer)
    requires |packet.payload| == PAYLOAD_MAX
    ensures r.cache == peer.cache
  {
    if packet.error != 0 || !Manages(p, peer, ResIdent(packet.payload)) then peer
    else peer.(file := Some(Receive(FileCheck(p, peer.file), packet)))
  }

  // The system.

  /**
   * One direction of a connection. Two peers may have several, told apart by the tag; dialled marks the
   * direction from the peer that connected.
   */
  datatype Link = Link(from: nat, to: nat, tag: nat, dialled: bool) {
    function Back(): Link {
      Link(to, from, tag, !dialled)
    }
  }

  datatype State = State(peers: seq<Peer>, channels: map<Link, seq<Packet>>, jobs: map<Link, Job>)

  /** What a user gives to FETCH to name the bytes wanted: a chunk hash, and an offset or none. */
  datatype Want = Want(hash: Hash, offset: Option<nat>)

  /** What a REQ asks for: the node to check, by its hash, and the range of the file to send. */
  datatype Ask = Ask(hash: Hash, offset: nat, len: nat) {
    predicate Has(x: nat) {
      offset <= x < offset + len
    }
  }

  function AskOf(pl: seq<byte>): Ask
    requires |pl| == PAYLOAD_MAX
  {
    Ask(ReqHash(pl), ReqOffset(pl), ReqLen(pl))
  }

  lemma RequestFieldSizes(pl: seq<byte>)
    requires |pl| == PAYLOAD_MAX
    ensures |ReqHash(pl)| == HASH_LEN && |ReqIdent(pl)| == IDENT_LEN
  {
  }

  const NO_OFFSET: nat := 0xFFFF_FFFF

  /** The offset asked for: the chunk's own, unless another is given. The code marks "none" by the value -1. */
  function FetchOffset(c: Chunk, offsetArg: Option<nat>): nat {
    if offsetArg.None? || offsetArg.value == NO_OFFSET then c.offset else offsetArg.value
  }

  /**
   * FETCH takes the first chunk with the hash, asks for as many bytes as it has, and from its offset or the
   * one given.
   */
  function FetchAsk(p: Package, w: Want): (a: Ask)
    requires FirstChunk(p, w.hash, 0).Some?
  {
    var c := p.chunks[FirstChunk(p, w.hash, 0).value];
    Ask(w.hash, FetchOffset(c, w.offset), c.size)
  }

  datatype Event =
    | Fetch(link: Link, ident: seq<byte>, want: Want)
    | Deliver(link: Link)
    | Emit(link: Link)
    | Ping(link: Link)
    | Check(peer: nat)
    | AddPackage(peer: nat, cache: seq<Hash>)

  /** Every connection joins two peers and can be used both ways, and only connections have send loops. */
  ghost predicate Wired(p: Package, s: State) {
    (forall l :: l in s.channels ==> l.from < |s.peers| && l.to < |s.peers|) &&
    (forall l {:trigger l.Back()} :: l in s.channels ==> l.Back() in s.channels) &&
    (forall l :: l in s.jobs ==> l in s.channels) &&
    (forall i :: 0 <= i < |s.peers| ==> CacheFits(p, s.peers[i]))
  }

  function Sent(s: State, l: Link, packet: Packet): State
    requires l in s.channels
  {
    s.(channels := s.channels[l := s.channels[l] + [packet]])
  }

  function Popped(s: State, l: Link): State
    requires l in s.channels && s.channels[l] != []
  {
    s.(channels := s.channels[l := s.channels[l][1..]])
  }

  /** Memory not yet written by a verification does not happen to hold an expected hash. */
  ghost predicate Unverified(p: Package, c: seq<Hash>) {
    |c| == |p.Expected()| && forall k :: 0 <= k < |c| ==> c[k] != p.Expected()[k]
  }

  function Request(ident: seq<byte>, a: Ask): (packet: Packet)
    requires ReqFields(ident, a.hash, a.len, a.offset)
    ensures packet.code == PKT_MSG_REQ && |packet.payload| == PAYLOAD_MAX
  {
    Packet(PKT_MSG_REQ, 0, EncodeReq(ident, a.hash, a.len, a.offset))
  }

  /** The FETCH command, with an offset of the user's own or without. */
  ghost predicate FetchStep(p: Package, s: State, l: Link, ident: seq<byte>, w: Want, s': State) {
    l in s.channels && l.from < |s.peers| && Manages(p, s.peers[l.from], ident) && FirstChunk(p, w.hash, 0).Some? &&
    var a := FetchAsk(p, w);
    ReqFields(ident, a.hash, a.len, a.offset) && s' == Sent(s, l, Request(ident, a))
  }

  /** A handler thread takes the next packet from its connection, unless it is busy sending. */
  ghost predicate DeliverStep(H: Digester, p: Package, s: State, l: Link, s': State)
    requires p.FullTree() && Wired(p, s)
  {
    l in s.channels && s.channels[l] != [] && l.Back() !in s.jobs &&
    var packet, rest, me := s.channels[l][0], Popped(s, l), s.peers[l.to];
    |packet.payload| == PAYLOAD_MAX &&
    if packet.code == PKT_MSG_REQ then
      var checked := rest.(peers := s.peers[l.to := AfterReq(H, p, me, packet.payload)]);
      match AnswerReq(H, p, me, packet.payload)
      case Refuse => s' == Sent(checked, l.Back(), ErrorRes())
      case Serve(job) => s' == checked.(jobs := s.jobs[l.Back() := job])
      case Crash => false
    else if packet.code == PKT_MSG_RES then
      s' == rest.(peers := s.peers[l.to := AfterRes(p, me, packet)])
    else if packet.code == PKT_MSG_PNG then
      s' == Sent(rest, l.Back(), Plain(PKT_MSG_POG))
    else
      s' == rest
  }

  /** The send loop reads the file as it is now and sends one packet, or ends. */
  ghost predicate EmitStep(p: Package, s: State, l: Link, s': State)
    requires Wired(p, s)
  {
    l in s.jobs &&
    var j, file := s.jobs[l], s.peers[l.from].file;
    if j.left <= 0 then
      s' == s.(jobs := s.jobs - {l})
    else
      file.Some? && Sendable(j.offset, j.hash, j.ident) &&
      s' == Sent(s, l, Piece(file.value, j.offset, j.left, j.hash, j.ident))
              .(jobs := s.jobs[l := j.(offset := j.offset + PieceLen(j.left), left := j.left - PieceLen(j.left))])
  }

  ghost predicate Step(H: Digester, p: Package, s: State, ev: Event, s': State)
    requires p.FullTree() && Wired(p, s)
  {
    match ev
    case Fetch(l, ident, w) => FetchStep(p, s, l, ident, w, s')
    case Deliver(l) => DeliverStep(H, p, s, l, s')
    case Emit(l) => EmitStep(p, s, l, s')
    case Ping(l) => l in s.channels && s' == Sent(s, l, Plain(PKT_MSG_PNG))
    case Check(i) => i < |s.peers| && s' == s.(peers := s.peers[i := Checked(H, p, s.peers[i])])
    case AddPackage(i, c) =>
      i < |s.peers| && s.peers[i].cache.None? && Unverified(p, c) &&
      s' == s.(peers := s.peers[i := s.peers[i].(cache := Some(c))])
  }

  /** At the start nothing is on its way and nothing has been verified; the files are arbitrary. */
  ghost predicate Initial(p: Package, s: State)
    requires p.FullTree()
  {
    Wired(p, s) && s.jobs == map[] &&
    (forall l :: l in s.channels ==> s.channels[l] == []) &&
    (forall i :: 0 <= i < |s.peers| && s.peers[i].cache.Some? ==> Unverified(p, s.peers[i].cache.value))
  }
}
