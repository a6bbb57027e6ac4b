/** The encrypted packet stream (libopenspotify/packet.c). */
module Packets {
  import opened Words
  import opened Shannon
  import opened ShannonKeys
  import opened Bufs

  datatype Packet = Packet(cmd: Byte, payload: seq<Byte>)

  /** The application's packet handler, which knows what was handled before: non-zero drops the connection. */
  type Handler = (seq<Packet>, Packet) -> int

  const IV_LIMIT := 0x1_0000_0000

  /** The initialisation vector, an `unsigned int`, as nonce bytes: they stand for it in network order. */
  function NonceBytes(iv: int): (b: seq<Byte>)
    ensures |b| == 4
    ensures 0 <= iv < IV_LIMIT ==>
              0x100_0000 * Value(b[0]) + 0x1_0000 * Value(b[1]) + 0x100 * Value(b[2]) + Value(b[3]) == iv
  {
    hide Value; hide ToByte;
    ValueOfByte(iv / 0x100_0000 % 0x100);
    ValueOfByte(iv / 0x1_0000 % 0x100);
    ValueOfByte(iv / 0x100 % 0x100);
    ValueOfByte(iv % 0x100);
    VectorAddsUp(iv);
    [ToByte(iv / 0x100_0000 % 0x100), ToByte(iv / 0x1_0000 % 0x100), ToByte(iv / 0x100 % 0x100), ToByte(iv % 0x100)]
  }

  lemma {:induction false} VectorAddsUp(iv: int)
    ensures 0 <= iv < IV_LIMIT ==>
              iv == 0x100_0000 * (iv / 0x100_0000 % 0x100) + 0x1_0000 * (iv / 0x1_0000 % 0x100)
                    + 0x100 * (iv / 0x100 % 0x100) + iv % 0x100
  {
    if 0 <= iv < IV_LIMIT {
      BytesAddUp(iv);
    }
  }

  /** A context keyed for packet number `iv`. */
  function Start(key: Reg, iv: int): (s: State)
    ensures s.nbuf == 0
  {
    Keyed(key, key, NonceBytes(iv))
  }

  predicate Sendable(p: Packet) {
    |p.payload| < 0x1_0000
  }

  function Header(p: Packet): (h: seq<Byte>)
    requires Sendable(p)
    ensures |h| == 3 && h[0] == p.cmd && ShortOf(h[1], h[2]) == |p.payload|
  {
    [p.cmd] + ShortBytes(|p.payload|)
  }

  /** The bytes that carry packet `p` under initialisation vector `iv`: header and payload encrypted in one run, then
      the MAC. */
  function Wire(key: Reg, iv: int, p: Packet): (w: seq<Byte>)
    requires Sendable(p)
    ensures |w| == 3 + |p.payload| + 4
  {
    var r := Run(Start(key, iv), Header(p) + p.payload, Encrypting);
    r.text + Mac(r.ctx, 4)
  }

  lemma {:induction false} WireIs(key: Reg, iv: int, p: Packet)
    requires Sendable(p)
    ensures var r := Run(Keyed(key, key, NonceBytes(iv)), [p.cmd] + ShortBytes(|p.payload|) + p.payload, Encrypting);
            Wire(key, iv, p) == r.text + Mac(r.ctx, 4)
  {
    hide Run; hide Keyed; hide NonceBytes; hide ShortBytes; hide Mac;
  }

  function NextIv(iv: int): int {
    (iv + 1) % IV_LIMIT
  }

  /** A whole conversation, one initialisation vector after the other. */
  function Stream(key: Reg, iv: int, ps: seq<Packet>): seq<Byte>
    requires forall p :: p in ps ==> Sendable(p)
    decreases |ps|
  {
    if ps == [] then [] else Wire(key, iv, ps[0]) + Stream(key, NextIv(iv), ps[1..])
  }

  // ---------------------------------------------------------------- the receiving end

  /** What the receiver holds: the next initialisation vector, the bytes not yet consumed and the packets handled. */
  datatype Receiver = Receiver(iv: int, buffered: seq<Byte>, handled: seq<Packet>)

  /** The decrypted header of the packet at the front, and the context after it. */
  function OpenHeader(key: Reg, iv: int, buffered: seq<Byte>): (r: Result)
    requires |buffered| >= 3
    ensures |r.text| == 3
  {
    Run(Start(key, iv), buffered[..3], Decrypting)
  }

  function HeaderLength(key: Reg, iv: int, buffered: seq<Byte>): (n: int)
    requires |buffered| >= 3
    ensures 0 <= n < 0x1_0000
  {
    var h := OpenHeader(key, iv, buffered).text;
    ShortOf(h[1], h[2])
  }

  predicate Complete(key: Reg, iv: int, buffered: seq<Byte>) {
    |buffered| >= 3 && |buffered| >= 3 + HeaderLength(key, iv, buffered) + 4
  }

  /** The packet at the front, once it is complete. */
  function Opened(key: Reg, iv: int, buffered: seq<Byte>): Packet
    requires Complete(key, iv, buffered)
  {
    var h := OpenHeader(key, iv, buffered);
    Packet(h.text[0], Run(h.ctx, buffered[3..3 + HeaderLength(key, iv, buffered)], Decrypting).text)
  }

  /** One turn of the framing loop. */
  function Taken(key: Reg, rx: Receiver): Receiver
    requires Complete(key, rx.iv, rx.buffered)
  {
    Receiver(NextIv(rx.iv), rx.buffered[3 + HeaderLength(key, rx.iv, rx.buffered) + 4..],
             rx.handled + [Opened(key, rx.iv, rx.buffered)])
  }

  /** The framing loop: handle every complete packet, or stop at the first one the handler refuses. */
  function Drained(key: Reg, rx: Receiver, handle: Handler): (Receiver, bool)
    decreases |rx.buffered|
  {
    if !Complete(key, rx.iv, rx.buffered) then (rx, true)
    else
      var next := Taken(key, rx);
      if handle(rx.handled, Opened(key, rx.iv, rx.buffered)) != 0 then (next, false) else Drained(key, next, handle)
  }

  // ---------------------------------------------------------------- properties

  /** At a packet boundary of a stream the receiver reads back the packet that was sent, as soon as it is complete. */
  lemma {:induction false} OpenWire(key: Reg, iv: int, p: Packet, buffered: seq<Byte>, rest: seq<Byte>)
    requires Sendable(p) && buffered + rest == Wire(key, iv, p) && |buffered| >= 3
    ensures HeaderLength(key, iv, buffered) == |p.payload|
    ensures rest == [] ==> Complete(key, iv, buffered) && Opened(key, iv, buffered) == p
  {
    hide Run; hide Start; hide Mac; hide ShortOf; hide ShortBytes;
    var s, plain := Start(key, iv), Header(p) + p.payload;
    var e := Run(s, plain, Encrypting);
    DecryptUndoesEncrypt(s, plain);
    var head, tail := e.text[..3], e.text[3..];
    assert head + tail == e.text;
    RunInPieces(s, head, tail, Decrypting);
    var h := Run(s, head, Decrypting);
    var t := Run(h.ctx, tail, Decrypting);
    assert buffered[..3] == (buffered + rest)[..3] == head;
    assert h.text == (h.text + t.text)[..3] == Header(p);
    assert t.text == (h.text + t.text)[3..] == p.payload;
    if rest == [] {
      assert buffered == e.text + Mac(e.ctx, 4);
      assert buffered[3..3 + |p.payload|] == tail;
    }
  }

  function NthIv(iv: int, k: nat): int {
    (iv + k) % IV_LIMIT
  }

  /** A received part of a stream: the packets before position `k` are handled, and `rx` is at the boundary behind
      them. */
  ghost predicate InStep(key: Reg, iv: int, ps: seq<Packet>, received: seq<Byte>, k: nat, rx: Receiver)
    requires forall p :: p in ps ==> Sendable(p)
  {
    k <= |ps| && rx.handled == ps[..k] && rx.iv == NthIv(iv, k)
    && received == Stream(key, iv, ps[..k]) + rx.buffered && rx.buffered <= Stream(key, rx.iv, ps[k..])
  }

  lemma NthAfterNext(iv: int, k: nat)
    requires 0 <= iv < IV_LIMIT
    ensures 0 <= NextIv(iv) < IV_LIMIT && NthIv(NextIv(iv), k) == NthIv(iv, k + 1) && NthIv(iv, 0) == iv
    ensures NextIv(NthIv(iv, k)) == NthIv(iv, k + 1) && 0 <= NthIv(iv, k) < IV_LIMIT
  {
    var q := (iv + k) / IV_LIMIT;
    assert iv + k == q * IV_LIMIT + NthIv(iv, k);
  }

  /** Different vectors key the cipher with different nonces, which leave different states. */
  lemma {:induction false} NoncesDiffer(key: Reg, iv: int, other: int)
    requires 0 <= iv < IV_LIMIT && 0 <= other < IV_LIMIT && iv != other
    ensures NonceBytes(iv) != NonceBytes(other) && Start(key, iv) != Start(key, other)
  {
    hide NonceBytes; hide Value; hide Keyed;
    assert NonceBytes(iv) != NonceBytes(other);
    KeyedDiffer(key, key, NonceBytes(iv), NonceBytes(other), 0);
  }

  /** No two of 2^32 packets in succession are encrypted from the same state. */
  lemma {:induction false} PacketsApart(key: Reg, iv: int, i: nat, j: nat)
    requires 0 <= iv < IV_LIMIT && i < j < i + IV_LIMIT
    ensures NthIv(iv, i) != NthIv(iv, j) && Start(key, NthIv(iv, i)) != Start(key, NthIv(iv, j))
  {
    hide Start; hide NonceBytes;
    RemaindersDiffer(iv + i, iv + j);
    NoncesDiffer(key, NthIv(iv, i), NthIv(iv, j));
  }

  lemma {:induction false} RemaindersDiffer(a: nat, b: nat)
    requires a < b < a + IV_LIMIT
    ensures a % IV_LIMIT != b % IV_LIMIT
  {
    assert a == IV_LIMIT * (a / IV_LIMIT) + a % IV_LIMIT && b == IV_LIMIT * (b / IV_LIMIT) + b % IV_LIMIT;
  }

  lemma {:induction false} StreamSplit(key: Reg, iv: int, ps: seq<Packet>, k: nat)
    requires 0 <= iv < IV_LIMIT && k <= |ps| && forall p :: p in ps ==> Sendable(p)
    ensures Stream(key, iv, ps) == Stream(key, iv, ps[..k]) + Stream(key, NthIv(iv, k), ps[k..])
    decreases k
  {
    hide Wire; hide NthIv; hide NextIv;
    NthAfterNext(iv, if k == 0 then 0 else k - 1);
    if k == 0 {
      assert ps[0..] == ps && ps[..0] == [];
    } else {
      StreamSplit(key, NextIv(iv), ps[1..], k - 1);
      assert ps[..k][1..] == ps[1..][..k - 1] && ps[1..][k - 1..] == ps[k..] && ps[..k][0] == ps[0];
    }
  }

  /** At a boundary of the stream, the front packet is complete exactly when all of its bytes have arrived. */
  lemma {:induction false} FrontPacket(key: Reg, iv: int, p: Packet, more: seq<Byte>, buffered: seq<Byte>)
    requires Sendable(p) && buffered <= Wire(key, iv, p) + more
    ensures Complete(key, iv, buffered) <==> |buffered| >= |Wire(key, iv, p)|
    ensures Complete(key, iv, buffered) ==>
              HeaderLength(key, iv, buffered) == |p.payload| && Opened(key, iv, buffered) == p
              && buffered[..|Wire(key, iv, p)|] == Wire(key, iv, p) && buffered[|Wire(key, iv, p)|..] <= more
  {
    hide Wire; hide Opened; hide HeaderLength;
    var w := Wire(key, iv, p);
    if |buffered| >= |w| {
      assert buffered[..|w|] == (w + more)[..|w|] == w;
      assert w + [] == w;
      OpenWire(key, iv, p, w, []);
      hide Complete;
      FrontOnly(key, iv, buffered, |w|);
      assert buffered[|w|..] == (w + more)[|w|..|buffered|];
    } else if |buffered| >= 3 {
      assert buffered == (w + more)[..|buffered|];
      assert buffered + w[|buffered|..] == w;
      OpenWire(key, iv, p, buffered, w[|buffered|..]);
    }
  }

  /** Opening a packet looks at no byte beyond its end. */
  lemma {:induction false} FrontOnly(key: Reg, iv: int, buffered: seq<Byte>, n: nat)
    requires 3 <= n <= |buffered|
    ensures HeaderLength(key, iv, buffered[..n]) == HeaderLength(key, iv, buffered)
    ensures Complete(key, iv, buffered[..n]) ==>
              Complete(key, iv, buffered) && Opened(key, iv, buffered[..n]) == Opened(key, iv, buffered)
  {
    hide Run; hide Start; hide ShortOf;
    assert buffered[..n][..3] == buffered[..3];
    var l := HeaderLength(key, iv, buffered);
    if Complete(key, iv, buffered[..n]) {
      assert buffered[..n][3..3 + l] == buffered[3..3 + l];
    }
  }

  /** Handling one packet moves a receiver that is in step to the next boundary. */
  lemma {:induction false} TakeKeepsStep(key: Reg, iv: int, ps: seq<Packet>, received: seq<Byte>, k: nat, rx: Receiver)
    requires 0 <= iv < IV_LIMIT && forall p :: p in ps ==> Sendable(p)
    requires InStep(key, iv, ps, received, k, rx) && Complete(key, rx.iv, rx.buffered)
    ensures k < |ps| && Opened(key, rx.iv, rx.buffered) == ps[k] && rx.handled == ps[..k]
    ensures InStep(key, iv, ps, received, k + 1, Taken(key, rx))
  {
    hide Wire; hide Opened; hide HeaderLength; hide Complete; hide NthIv; hide NextIv;
    NthAfterNext(iv, k);
    CompleteIsLong(key, rx.iv, rx.buffered);
    if k < |ps| {
      var w := Wire(key, rx.iv, ps[k]);
      var more := Stream(key, NextIv(rx.iv), ps[k..][1..]);
      assert ps[k..][0] == ps[k];
      FrontPacket(key, rx.iv, ps[k], more, rx.buffered);
      StreamSplit(key, iv, ps[..k + 1], k);
      assert ps[..k + 1][..k] == ps[..k] && ps[..k + 1][k..] == [ps[k]] && ps[k..][1..] == ps[k + 1..];
      assert Stream(key, rx.iv, [ps[k]]) == w + Stream(key, NextIv(rx.iv), []) == w;
      assert rx.buffered == w + rx.buffered[|w|..];
    }
  }

  lemma CompleteIsLong(key: Reg, iv: int, buffered: seq<Byte>)
    ensures Complete(key, iv, buffered) ==> |buffered| >= 7
  {
  }

  /** The framing loop keeps the receiver in step and stops only at an incomplete packet or a refusal. */
  lemma {:induction false} DrainKeepsStep(key: Reg, iv: int, ps: seq<Packet>, received: seq<Byte>, k: nat,
                                          rx: Receiver, handle: Handler)
    returns (n: nat)
    requires 0 <= iv < IV_LIMIT && forall p :: p in ps ==> Sendable(p)
    requires InStep(key, iv, ps, received, k, rx)
    ensures var (end, ok) := Drained(key, rx, handle);
            k <= n && InStep(key, iv, ps, received, n, end)
            && (forall i :: k <= i < (if ok then n else n - 1) ==> handle(ps[..i], ps[i]) == 0)
            && (if ok then !Complete(key, end.iv, end.buffered) else n > k && handle(ps[..n - 1], ps[n - 1]) != 0)
    decreases |rx.buffered|
  {
    hide InStep; hide Opened; hide HeaderLength;
    n := k;
    if Complete(key, rx.iv, rx.buffered) {
      TakeKeepsStep(key, iv, ps, received, k, rx);
      if handle(ps[..k], ps[k]) != 0 {
        n := k + 1;
      } else {
        n := DrainKeepsStep(key, iv, ps, received, k + 1, Taken(key, rx), handle);
      }
    }
  }

  /** Successive reads, one for each chunk, until the handler refuses a packet. */
  function Fed(key: Reg, iv: int, chunks: seq<seq<Byte>>, handle: Handler): (Receiver, bool) {
    if chunks == [] then (Receiver(iv, [], []), true)
    else
      var (rx, ok) := Fed(key, iv, chunks[..|chunks| - 1], handle);
      if !ok then (rx, false)
      else Drained(key, rx.(buffered := rx.buffered + chunks[|chunks| - 1]), handle)
  }

  /**
   * However a stream of packets is cut into chunks, the packets handled are a prefix of those sent, in order, and what
   * is left over starts at a packet boundary; the receiver stops only for want of bytes or because the handler refused.
   */
  lemma {:induction false} Delivery(key: Reg, iv: int, ps: seq<Packet>, chunks: seq<seq<Byte>>, handle: Handler)
    returns (n: nat)
    requires 0 <= iv < IV_LIMIT && forall p :: p in ps ==> Sendable(p)
    requires Concat(chunks) <= Stream(key, iv, ps)
    ensures n <= |ps|
    ensures var (rx, ok) := Fed(key, iv, chunks, handle);
            rx.handled == ps[..n] && rx.iv == NthIv(iv, n)
            && (forall i :: 0 <= i < (if ok then n else n - 1) ==> handle(ps[..i], ps[i]) == 0)
            && (if ok then InStep(key, iv, ps, Concat(chunks), n, rx) && !Complete(key, rx.iv, rx.buffered)
                else n > 0 && handle(ps[..n - 1], ps[n - 1]) != 0)
  {
    hide Wire; hide Opened; hide HeaderLength; hide Complete; hide NthIv; hide NextIv; hide Drained; hide Stream;
    if chunks == [] {
      n := 0;
      NthAfterNext(iv, 0);
      StreamSplit(key, iv, ps, 0);
      CompleteIsLong(key, iv, []);
      assert ps[0..] == ps && ps[..0] == [];
    } else {
      var last := |chunks| - 1;
      var (rx, ok) := Fed(key, iv, chunks[..last], handle);
      n := Delivery(key, iv, ps, chunks[..last], handle);
      if ok {
        StreamSplit(key, iv, ps, n);
        var more := rx.(buffered := rx.buffered + chunks[last]);
        assert Concat(chunks) == Stream(key, iv, ps[..n]) + more.buffered;
        assert more.buffered == Concat(chunks)[|Stream(key, iv, ps[..n])|..];
        n := DrainKeepsStep(key, iv, ps, Concat(chunks), n, more, handle);
      }
    }
  }

  /** Once the whole stream has arrived and no packet was refused, every packet has been handled and nothing is left
      over. */
  lemma {:induction false} AllDelivered(key: Reg, iv: int, ps: seq<Packet>, chunks: seq<seq<Byte>>, handle: Handler)
    requires 0 <= iv < IV_LIMIT && forall p :: p in ps ==> Sendable(p)
    requires Concat(chunks) == Stream(key, iv, ps) && Fed(key, iv, chunks, handle).1
    ensures Fed(key, iv, chunks, handle).0 == Receiver(NthIv(iv, |ps|), [], ps)
  {
    hide Wire; hide Opened; hide HeaderLength; hide Complete; hide NthIv; hide NextIv; hide Drained; hide Fed;
    var n := Delivery(key, iv, ps, chunks, handle);
    var rx := Fed(key, iv, chunks, handle).0;
    StreamSplit(key, iv, ps, n);
    assert rx.buffered == Stream(key, rx.iv, ps[n..]);
    if n < |ps| {
      assert ps[n..][0] == ps[n];
      FrontPacket(key, rx.iv, ps[n], Stream(key, NextIv(rx.iv), ps[n..][1..]), rx.buffered);
    }
    assert ps[..|ps|] == ps;
  }

  /** With a handler that accepts them all, every packet of a stream is handled however it is cut. */
  lemma {:induction false} CompleteDelivery(key: Reg, iv: int, ps: seq<Packet>, chunks: seq<seq<Byte>>, handle: Handler)
    requires 0 <= iv < IV_LIMIT && forall p :: p in ps ==> Sendable(p)
    requires forall i :: 0 <= i < |ps| ==> handle(ps[..i], ps[i]) == 0
    requires Concat(chunks) == Stream(key, iv, ps)
    ensures Fed(key, iv, chunks, handle) == (Receiver(NthIv(iv, |ps|), [], ps), true)
  {
    hide InStep; hide Complete; hide NthIv; hide Fed; hide Stream;
    var n := Delivery(key, iv, ps, chunks, handle);
    AllDelivered(key, iv, ps, chunks, handle);
  }

  // ---------------------------------------------------------------- the session

  /** The fields of `sp_session` that the transport uses; `handled` and `sent` record handle_packet and the socket. */
  class Session {
    var packet: Buf?
    var keyRecvIv: int
    var keySendIv: int
    const shnRecv: ShnCtx
    const shnSend: ShnCtx
    var handled: seq<Packet>
    var sent: seq<Byte>

    ghost predicate Valid()
      reads this, packet
    {
      shnRecv.Valid() && shnSend.Valid() && shnRecv != shnSend
      && {shnRecv.R, shnRecv.CRC, shnRecv.initR} !! {shnSend.R, shnSend.CRC, shnSend.initR}
      && 0 <= keyRecvIv < IV_LIMIT && 0 <= keySendIv < IV_LIMIT
      && (packet != null ==> packet.Valid())
    }

    ghost function Buffered(): seq<Byte>
      requires Valid()
      reads this, packet, if packet == null then {} else {packet.ptr}
    {
      if packet == null then [] else packet.Contents()
    }

    ghost function Rx(): Receiver
      requires Valid()
      reads this, packet, if packet == null then {} else {packet.ptr}
    {
      Receiver(keyRecvIv, Buffered(), handled)
    }

    ghost function RecvKey(): Reg
      requires Valid()
      reads this, packet, shnRecv.initR
    {
      shnRecv.initR[..]
    }

    constructor (recv: ShnCtx, send: ShnCtx)
      requires recv.Valid() && send.Valid() && recv != send
      requires {recv.R, recv.CRC, recv.initR} !! {send.R, send.CRC, send.initR}
      ensures Valid() && Rx() == Receiver(0, [], []) && keySendIv == 0 && sent == []
      ensures shnRecv == recv && shnSend == send
    {
      packet, keyRecvIv, keySendIv, handled, sent := null, 0, 0, [], [];
      shnRecv, shnSend := recv, send;
    }

    /** The buffer with room for at least one byte. */
    method MakeRoom()
      requires Valid()
      modifies this`packet, packet
      ensures Valid() && packet != null && packet.len < packet.size && Buffered() == old(Buffered())
      ensures packet == old(packet) || fresh(packet)
      ensures (old(packet) != null && packet.ptr == old(packet.ptr)) || fresh(packet.ptr)
    {
      if packet == null {
        packet := new Buf();
      } else if packet.len == packet.size {
        packet.Extend(packet.size);
      }
    }

    /** Key the receiving context for the next packet. */
    method KeyForPacket(ctx: ShnCtx, iv: int)
      requires ctx.Valid()
      modifies ctx, ctx.R, ctx.CRC
      ensures ctx.Ready() && ctx.State() == Start(ctx.initR[..], iv)
    {
      hide Keyed; hide ToByte; hide Live;
      var nonce := new Byte[4];
      nonce[0] := ToByte(iv / 0x100_0000 % 0x100);
      nonce[1] := ToByte(iv / 0x1_0000 % 0x100);
      nonce[2] := ToByte(iv / 0x100 % 0x100);
      nonce[3] := ToByte(iv % 0x100);
      assert nonce[..] == NonceBytes(iv);
      ctx.Nonce(nonce);
    }

    /** A copy of the first three bytes received. */
    method CopyHeader() returns (header: array<Byte>)
      requires Valid() && packet != null && packet.len >= 3
      ensures fresh(header) && header.Length == 3 && header[..] == Buffered()[..3]
    {
      header := new Byte[3];
      header[0], header[1], header[2] := packet.ptr[0], packet.ptr[1], packet.ptr[2];
    }

    /** Decrypt all of a buffer. */
    method DecryptWhole(buf: array<Byte>)
      requires shnRecv.Ready()
      modifies shnRecv, shnRecv.R, shnRecv.CRC, buf
      ensures shnRecv.Ready()
      ensures var r := Run(old(shnRecv.State()), old(buf[..]), Decrypting);
      shnRecv.State() == r.ctx && buf[..] == r.text
    {
      hide Run; hide Live; hide Ran;
      ghost var s, before := shnRecv.State(), buf[..];
      shnRecv.Decrypt(buf, 0, buf.Length);
      RanParts(s, before, 0, buf.Length, Decrypting, shnRecv.State(), buf[..]);
      assert before[0..buf.Length] == before && buf[0..buf.Length] == buf[..];
    }

    /** Set the nonce and decrypt a copy of the front packet's header. */
    method DecryptHeader() returns (header: array<Byte>)
      requires Valid() && packet != null && packet.len >= 3
      modifies shnRecv, shnRecv.R, shnRecv.CRC
      ensures fresh(header) && header.Length == 3 && shnRecv.Ready()
      ensures var h := OpenHeader(RecvKey(), keyRecvIv, Buffered()); header[..] == h.text && shnRecv.State() == h.ctx
    {
      hide Run; hide Start; hide Live;
      header := CopyHeader();
      KeyForPacket(shnRecv, keyRecvIv);
      DecryptWhole(header);
    }

    /** Copy the header back, its length in host order, and decrypt the payload where it lies. */
    method OpenFront(front: array<Byte>, header: array<Byte>, len: nat) returns (p: Packet)
      requires Valid() && shnRecv.Ready() && header.Length == 3 && 3 + len <= front.Length && front != header
      modifies front, shnRecv, shnRecv.R, shnRecv.CRC
      ensures p == Packet(header[0], Run(old(shnRecv.State()), old(front[3..3 + len]), Decrypting).text)
    {
      hide Run; hide Live; hide Ran;
      ghost var s, payload := shnRecv.State(), front[3..3 + len];
      front[0], front[1], front[2] := header[0], header[2], header[1];
      ghost var before := front[..];
      assert before[3..3 + len] == payload;
      shnRecv.Decrypt(front, 3, len);
      RanParts(s, before, 3, 3 + len, Decrypting, shnRecv.State(), front[..]);
      p := Packet(header[0], front[3..3 + len]);
    }

    /** Split off the front packet, decrypt it and hand it over. */
    method TakeFront(header: array<Byte>, len: nat, ghost key: Reg)
      requires Valid() && packet != null && shnRecv.Ready() && header.Length == 3 && header != packet.ptr
      requires Complete(key, keyRecvIv, Buffered()) && len == HeaderLength(key, keyRecvIv, Buffered())
      requires var h := OpenHeader(key, keyRecvIv, Buffered()); header[..] == h.text && shnRecv.State() == h.ctx
      modifies this`keyRecvIv, this`handled, packet, packet.ptr, shnRecv, shnRecv.R, shnRecv.CRC
      ensures Valid() && packet == old(packet) && packet.ptr == old(packet.ptr)
      ensures Rx() == Taken(key, old(Rx()))
    {
      hide OpenHeader; hide HeaderLength; hide Run; hide Live;
      ghost var h, bytes := shnRecv.State(), Buffered();
      var front := packet.Consume(3 + len + 4);
      assert front.ptr[3..3 + len] == bytes[3..3 + len];
      assert shnRecv.State() == h;
      var p := OpenFront(front.ptr, header, len);
      keyRecvIv := (keyRecvIv + 1) % IV_LIMIT;
      handled := handled + [p];
    }

    /** The framing loop over what has been received. */
    method Drain(handle: Handler) returns (ret: int)
      requires Valid() && packet != null
      modifies this`keyRecvIv, this`handled, packet, packet.ptr, shnRecv, shnRecv.R, shnRecv.CRC
      ensures Valid() && packet == old(packet) && packet.ptr == old(packet.ptr)
      ensures var (rx, ok) := Drained(RecvKey(), old(Rx()), handle); Rx() == rx && ret == if ok then 0 else -1
    {
      hide OpenHeader; hide Opened; hide Run; hide Start; hide Live; hide ShortOf;
      ghost var key := RecvKey();
      while packet.len >= 3
        invariant Valid() && packet == old(packet) && packet.ptr == old(packet.ptr) && RecvKey() == key
        invariant Drained(key, Rx(), handle) == Drained(key, old(Rx()), handle)
        decreases packet.len
      {
        var header := DecryptHeader();
        var len := ShortOf(header[1], header[2]);
        if packet.len < 3 + len + 4 {
          return 0;
        }
        TakeFront(header, len, key);
        var last := |handled| - 1;
        if handle(handled[..last], handled[last]) != 0 {
          return -1;
        }
      }
      return 0;
    }

    /** recv: at most `want` of the available bytes, and no more than the buffer has room for. */
    method Receive(available: seq<Byte>, want: nat) returns (taken: nat)
      requires Valid() && 0 < |available| && 0 < want && packet != null && packet.len < packet.size
      modifies packet`len, packet.ptr
      ensures Valid() && 0 < taken <= |available| && taken <= want
      ensures Buffered() == old(Buffered()) + available[..taken]
    {
      var room := packet.size - packet.len;
      taken := if want < room then want else room;
      taken := if |available| < taken then |available| else taken;
      forall i | 0 <= i < taken {
        packet.ptr[packet.len + i] := available[i];
      }
      packet.len := packet.len + taken;
    }

    /** packet_read_and_process: receive some bytes and handle every packet that is then complete. */
    method ReadAndProcess(available: seq<Byte>, want: nat, handle: Handler) returns (ret: int, taken: nat)
      requires Valid() && 0 < |available| && 0 < want
      modifies this`packet, this`keyRecvIv, this`handled, packet, if packet == null then {} else {packet.ptr}
      modifies shnRecv, shnRecv.R, shnRecv.CRC
      ensures Valid() && 0 < taken <= |available| && taken <= want
      ensures var rx := old(Rx()); var (end, ok) :=
                Drained(RecvKey(), rx.(buffered := rx.buffered + available[..taken]), handle);
              Rx() == end && ret == if ok then 0 else -1
      ensures packet != null && (packet == old(packet) || fresh(packet))
      ensures (old(packet) != null && packet.ptr == old(packet.ptr)) || fresh(packet.ptr)
    {
      hide Drained;
      MakeRoom();
      taken := Receive(available, want);
      ret := Drain(handle);
    }

    /** Header and payload of an outgoing packet, with room for the MAC. */
    method Compose(cmd: Byte, payload: array?<Byte>, len: nat) returns (buf: array<Byte>, ghost body: seq<Byte>)
      requires len < 0x1_0000 && (payload != null ==> len <= payload.Length)
      ensures fresh(buf) && buf.Length == 3 + len + 4 && |body| == len && (payload != null ==> body == payload[..len])
      ensures buf[..3 + len] == Header(Packet(cmd, body)) + body
    {
      hide ToByte;
      buf := new Byte[3 + len + 4];
      buf[0], buf[1], buf[2] := cmd, ToByte(len / 0x100), ToByte(len % 0x100);
      if payload != null {
        forall i | 0 <= i < len {
          buf[3 + i] := payload[i];
        }
      }
      body := buf[3..3 + len];
    }

    /** Encrypt a composed packet under the next initialisation vector and append the MAC. */
    method EncryptPacket(buf: array<Byte>, len: nat, ghost p: Packet)
      requires Valid() && len < 0x1_0000 && buf.Length == 3 + len + 4 && |p.payload| == len
      requires buf[..3 + len] == Header(p) + p.payload
      modifies buf, shnSend, shnSend.R, shnSend.CRC
      ensures buf[..] == Wire(shnSend.initR[..], keySendIv, p)
      ensures var key := shnSend.initR[..];
              var r := Run(Keyed(key, key, NonceBytes(keySendIv)), [p.cmd] + ShortBytes(len) + p.payload, Encrypting);
              buf[..] == r.text + Mac(r.ctx, 4)
    {
      hide Run; hide Start; hide Live; hide Ran; hide Patched; hide Mac; hide Header;
      KeyForPacket(shnSend, keySendIv);
      ghost var s, plain := shnSend.State(), buf[..];
      assert plain[0..3 + len] == Header(p) + p.payload;
      shnSend.Encrypt(buf, 0, 3 + len);
      ghost var e, text := shnSend.State(), buf[..];
      RanParts(s, plain, 0, 3 + len, Encrypting, e, text);
      shnSend.Finish(buf, 3 + len, 4);
      PatchedEnd(text, buf[..], 3 + len, Mac(e, 4));
      assert text[..3 + len] == text[0..3 + len];
      WireIs(shnSend.initR[..], keySendIv, p);
    }

    /**
     * packet_write: `wrote` is what the socket accepts. Without a payload buffer the payload is whatever the allocated
     * memory holds; `body` names the payload that was sent.
     */
    method Write(cmd: Byte, payload: array?<Byte>, len: nat, wrote: nat) returns (ret: int, ghost body: seq<Byte>)
      requires Valid() && len < 0x1_0000 && wrote <= 3 + len + 4
      requires payload != null ==> len <= payload.Length
      modifies this`keySendIv, this`sent, shnSend, shnSend.R, shnSend.CRC
      ensures Valid() && |body| == len && (payload != null ==> body == old(payload[..len]))
      ensures sent == old(sent) + Wire(shnSend.initR[..], old(keySendIv), Packet(cmd, body))[..wrote]
      ensures keySendIv == NextIv(old(keySendIv)) && ret == if wrote == 3 + len + 4 then 0 else -1
    {
      hide Wire; hide Header; hide Run; hide Keyed; hide NonceBytes; hide ShortBytes; hide Mac;
      var buf;
      buf, body := Compose(cmd, payload, len);
      EncryptPacket(buf, len, Packet(cmd, body));
      sent := sent + buf[..wrote];
      keySendIv := (keySendIv + 1) % IV_LIMIT;
      ret := if wrote == 3 + len + 4 then 0 else -1;
    }

    /** One packet after another, each accepted whole by the socket. */
    method SendAll(ps: seq<Packet>)
      requires Valid() && forall p :: p in ps ==> Sendable(p)
      modifies this`keySendIv, this`sent, shnSend, shnSend.R, shnSend.CRC
      ensures Valid() && keySendIv == NthIv(old(keySendIv), |ps|)
      ensures sent == old(sent) + Stream(shnSend.initR[..], old(keySendIv), ps)
    {
      hide Wire; hide NthIv; hide NextIv;
      ghost var key, iv, before := shnSend.initR[..], keySendIv, sent;
      NthAfterNext(iv, 0);
      assert ps[..0] == [] && before + [] == before;
      for i := 0 to |ps|
        invariant Valid() && keySendIv == NthIv(iv, i) && shnSend.initR[..] == key
        invariant sent == before + Stream(key, iv, ps[..i])
      {
        var p := ps[i];
        assert p in ps;
        var payload := new Byte[|p.payload|](k requires 0 <= k < |p.payload| => p.payload[k]);
        assert payload[..|p.payload|] == p.payload;
        var ret, body := Write(p.cmd, payload, |p.payload|, 3 + |p.payload| + 4);
        assert Wire(key, NthIv(iv, i), p)[..3 + |p.payload| + 4] == Wire(key, NthIv(iv, i), p);
        StreamAppend(key, iv, ps[..i], p);
        assert ps[..i] + [p] == ps[..i + 1];
      }
      assert ps[..|ps|] == ps;
    }

    /** One read after another until the bytes are used up or a packet is refused; read `k` asks for `wants(k)`
        bytes. */
    method ReceiveAll(wire: seq<Byte>, wants: nat -> nat, handle: Handler)
      returns (ret: int, ghost chunks: seq<seq<Byte>>)
      requires Valid() && Rx() == Receiver(keyRecvIv, [], []) && forall k: nat :: wants(k) > 0
      modifies this`packet, this`keyRecvIv, this`handled, packet, if packet == null then {} else {packet.ptr}
      modifies shnRecv, shnRecv.R, shnRecv.CRC
      ensures Valid() && Fed(old(RecvKey()), old(keyRecvIv), chunks, handle) == (Rx(), ret == 0)
      ensures Concat(chunks) <= wire && (ret == 0 ==> Concat(chunks) == wire)
    {
      hide Drained;
      ghost var key, iv := RecvKey(), keyRecvIv;
      var done, k := 0, 0;
      ret, chunks := 0, [];
      while ret == 0 && done < |wire|
        invariant Valid() && RecvKey() == key && 0 <= done <= |wire| && Concat(chunks) == wire[..done]
        invariant Fed(key, iv, chunks, handle) == (Rx(), ret == 0)
        invariant packet == old(packet) || fresh(packet)
        invariant packet == null || (old(packet) != null && packet.ptr == old(packet.ptr)) || fresh(packet.ptr)
        decreases ret == 0, |wire| - done
      {
        ghost var rx := Rx();
        var taken;
        ret, taken := ReadAndProcess(wire[done..], wants(k), handle);
        ghost var piece := wire[done..][..taken];
        assert (chunks + [piece])[..|chunks|] == chunks;
        assert wire[..done] + piece == wire[..done + taken];
        chunks, done, k := chunks + [piece], done + taken, k + 1;
      }
      assert done == |wire| ==> wire[..done] == wire;
    }
  }

  lemma PatchedEnd(before: seq<Byte>, after: seq<Byte>, from: nat, done: seq<Byte>)
    requires |before| == from + |done| && Patched(before, after, from, from + |done|, done)
    ensures after == before[..from] + done
  {
  }

  /** Sending one more packet extends the stream. */
  lemma {:induction false} StreamAppend(key: Reg, iv: int, ps: seq<Packet>, p: Packet)
    requires 0 <= iv < IV_LIMIT && Sendable(p) && forall q :: q in ps ==> Sendable(q)
    ensures Stream(key, iv, ps + [p]) == Stream(key, iv, ps) + Wire(key, NthIv(iv, |ps|), p)
    ensures NextIv(NthIv(iv, |ps|)) == NthIv(iv, |ps + [p]|)
  {
    hide Wire;
    StreamSplit(key, iv, ps + [p], |ps|);
    NthAfterNext(iv, |ps|);
    assert (ps + [p])[..|ps|] == ps && (ps + [p])[|ps|..] == [p];
    assert Stream(key, NthIv(iv, |ps|), [p]) ==
      Wire(key, NthIv(iv, |ps|), p) + Stream(key, NextIv(NthIv(iv, |ps|)), []);
  }

  /** A whole conversation over the wire: one session writes the packets, another with the same key and vector receives
      the bytes in pieces of any size. It handles every packet, in order and nothing else, up to the first one it
      refuses. */
  method Converse(sender: Session, receiver: Session, ps: seq<Packet>, wants: nat -> nat, handle: Handler)
    returns (ret: int, ghost n: nat)
    requires sender.Valid() && receiver.Valid() && sender != receiver && forall p :: p in ps ==> Sendable(p)
    requires {sender.shnSend, sender.shnSend.R, sender.shnSend.CRC, sender.shnSend.initR}
             !! {receiver.shnRecv, receiver.shnRecv.R, receiver.shnRecv.CRC, receiver.shnRecv.initR}
    requires sender.sent == [] && receiver.Rx() == Receiver(sender.keySendIv, [], [])
    requires sender.shnSend.initR[..] == receiver.RecvKey() && forall k: nat :: wants(k) > 0
    modifies sender`keySendIv, sender`sent, sender.shnSend, sender.shnSend.R, sender.shnSend.CRC
    modifies receiver`packet, receiver`keyRecvIv, receiver`handled
    modifies receiver.packet, if receiver.packet == null then {} else {receiver.packet.ptr}
    modifies receiver.shnRecv, receiver.shnRecv.R, receiver.shnRecv.CRC
    ensures receiver.Valid() && n <= |ps| && receiver.handled == ps[..n]
    ensures forall i :: 0 <= i < (if ret == 0 then n else n - 1) ==> handle(ps[..i], ps[i]) == 0
    ensures ret == 0 ==> receiver.Rx() == Receiver(sender.keySendIv, [], ps)
    ensures ret != 0 ==> n > 0 && handle(ps[..n - 1], ps[n - 1]) != 0
  {
    hide Stream; hide NthIv; hide Fed; hide InStep; hide Complete;
    ghost var key, iv := receiver.RecvKey(), receiver.keyRecvIv;
    sender.SendAll(ps);
    ghost var chunks;
    ret, chunks := receiver.ReceiveAll(sender.sent, wants, handle);
    n := Delivery(key, iv, ps, chunks, handle);
    if ret == 0 {
      AllDelivered(key, iv, ps, chunks, handle);
    }
  }
}
