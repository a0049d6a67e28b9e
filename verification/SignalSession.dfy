/** The one-to-one session: a symmetric ratchet on each side, one key per frame. */
module SignalModel {
  import opened Bytes

  const CHAIN_LABEL: Bytes := [99, 104, 97, 105, 110]  // "chain"
  const MSG_LABEL: Bytes := [109, 115, 103]            // "msg"

  ghost function Chain(c: Crypto, ck: Bytes): Bytes {
    c.hkdf(ck, [1], CHAIN_LABEL, 32)
  }

  /** The chain key after n frames. */
  ghost function ChainAfter(c: Crypto, ck: Bytes, n: nat): Bytes {
    if n == 0 then ck else Chain(c, ChainAfter(c, ck, n - 1))
  }

  /** The key of frame i, counting from zero: derived from the advanced chain key. */
  ghost function FrameKey(c: Crypto, ck: Bytes, i: nat): Bytes {
    c.hkdf(ChainAfter(c, ck, i + 1), [2], MSG_LABEL, 32)
  }

  lemma {:induction false} ChainCompose(c: Crypto, ck: Bytes, m: nat, n: nat)
    ensures ChainAfter(c, ChainAfter(c, ck, m), n) == ChainAfter(c, ck, m + n)
  {
    if n > 0 { ChainCompose(c, ck, m, n - 1); }
  }

  lemma FrameKeyShift(c: Crypto, ck: Bytes, m: nat, i: nat)
    ensures FrameKey(c, ChainAfter(c, ck, m), i) == FrameKey(c, ck, m + i)
  {
    ChainCompose(c, ck, m, i + 1);
  }

  /** Frame 0 is keyed from the chain key one step on, and advancing the chain first makes
      every later frame the one before: the two facts that fix all frame keys. */
  lemma FrameKeyUnrolled(c: Crypto, ck: Bytes, i: nat)
    ensures FrameKey(c, ck, 0) == c.hkdf(c.hkdf(ck, [1], CHAIN_LABEL, 32), [2], MSG_LABEL, 32)
    ensures FrameKey(c, ck, i + 1) == FrameKey(c, c.hkdf(ck, [1], CHAIN_LABEL, 32), i)
  {
    assert ChainAfter(c, ck, 1) == Chain(c, ck) by { assert ChainAfter(c, ck, 0) == ck; }
    FrameKeyShift(c, ck, 1, i);
  }

  /** One length byte, the plaintext, and zeros up to 228 bytes. */
  function Pad(p: Bytes): (r: Bytes)
    ensures |r| == MAX_PLAINTEXT
  {
    var q := Cut(p, MAX_PLAINTEXT - 1);
    [|q|] + q + ZeroBytes(MAX_PLAINTEXT - 1 - |q|)
  }

  /** The slice after the length byte, cut at the end as slices are. */
  function Unpad(padded: Bytes): Bytes
    requires |padded| > 0
  {
    var end := if 1 + padded[0] <= |padded| then 1 + padded[0] else |padded|;
    padded[1..end]
  }

  /** The length prefix makes unpadding exact, also for plaintexts ending in zeros. */
  lemma UnpadPad(p: Bytes)
    ensures Unpad(Pad(p)) == Cut(p, MAX_PLAINTEXT - 1)
  {
    PadLayout(p);
  }

  /** The layout: byte 0 is the length, the cut plaintext follows, all else is zero. */
  lemma PadLayout(p: Bytes)
    ensures var q, r := if |p| <= 227 then p else p[..227], Pad(p);
      |r| == 228 && r[0] == |q| && r[1..1 + |q|] == q && forall k :: 1 + |q| <= k < 228 ==> r[k] == 0
  {
    var q := Cut(p, MAX_PLAINTEXT - 1);
    assert Pad(p)[1..1 + |q|] == q;
  }

  /** Unpadding anything that opened: as many bytes as the first one says, or all there
      are after it. */
  lemma UnpadLaw(padded: Bytes)
    requires |padded| > 0
    ensures var r := Unpad(padded);
      r <= padded[1..] && (|r| == padded[0] || (|r| == |padded| - 1 && padded[0] >= |r|))
  {}

  ghost function Wire(c: Crypto, key: Bytes, nonce: Bytes, p: Bytes): Bytes {
    nonce + c.seal(key, nonce, Pad(p))
  }

  ghost function Opened(c: Crypto, key: Bytes, wire: Bytes): Result<Bytes>
    requires |wire| == FRAME_WIRE_SIZE && Ideal(c)
  {
    match c.open(key, wire[..NONCE_SIZE], wire[NONCE_SIZE..])
    case None => Err(BadTag)
    case Some(padded) => Ok(Unpad(padded))
  }

  /** What a receiver makes of one frame: its answer and its next chain key. A frame of
      the right size moves the ratchet even when its tag is bad. */
  ghost function Received(c: Crypto, ck: Bytes, wire: Bytes): (r: (Result<Bytes>, Bytes))
    requires Ideal(c)
  {
    if |wire| != FRAME_WIRE_SIZE then (Err(BadFrameSize), ck)
    else (Opened(c, FrameKey(c, ck, 0), wire), Chain(c, ck))
  }

  lemma OpenedWire(c: Crypto, key: Bytes, nonce: Bytes, p: Bytes)
    requires Ideal(c) && |nonce| == NONCE_SIZE
    ensures |Wire(c, key, nonce, p)| == FRAME_WIRE_SIZE
    ensures Opened(c, key, Wire(c, key, nonce, p)) == Ok(Cut(p, MAX_PLAINTEXT - 1))
  {
    var ct, wire := c.seal(key, nonce, Pad(p)), Wire(c, key, nonce, p);
    assert wire[..NONCE_SIZE] == nonce && wire[NONCE_SIZE..] == ct;
    UnpadPad(p);
  }

  // ----- Runs

  datatype Message = Message(text: Bytes, nonce: Bytes)

  ghost predicate GoodNonces(ms: seq<Message>) {
    forall i :: 0 <= i < |ms| ==> |ms[i].nonce| == NONCE_SIZE
  }

  /** The wires a sender makes of a list of messages. */
  ghost function Wires(c: Crypto, ck: Bytes, ms: seq<Message>): (r: seq<Bytes>)
    ensures |r| == |ms|
    decreases |ms|
  {
    if ms == [] then []
    else [Wire(c, FrameKey(c, ck, 0), ms[0].nonce, ms[0].text)] + Wires(c, Chain(c, ck), ms[1..])
  }

  /** A receiver's chain key and answers after a list of frames. */
  ghost function ReceiverChain(c: Crypto, ck: Bytes, wires: seq<Bytes>): Bytes
    requires Ideal(c)
    decreases |wires|
  {
    if wires == [] then ck else ReceiverChain(c, Received(c, ck, wires[0]).1, wires[1..])
  }

  ghost function Answers(c: Crypto, ck: Bytes, wires: seq<Bytes>): (r: seq<Result<Bytes>>)
    requires Ideal(c)
    ensures |r| == |wires|
    decreases |wires|
  {
    if wires == [] then []
    else [Received(c, ck, wires[0]).0] + Answers(c, Received(c, ck, wires[0]).1, wires[1..])
  }

  ghost function FullFrames(wires: seq<Bytes>): nat {
    if wires == [] then 0
    else (if |wires[0]| == FRAME_WIRE_SIZE then 1 else 0) + FullFrames(wires[1..])
  }

  /** Whatever arrives, a receiver's position is the number of full-size frames. */
  lemma {:induction false} ReceiverPosition(c: Crypto, ck: Bytes, wires: seq<Bytes>)
    requires Ideal(c)
    ensures ReceiverChain(c, ck, wires) == ChainAfter(c, ck, FullFrames(wires))
    decreases |wires|
  {
    if wires != [] {
      ReceiverPosition(c, Received(c, ck, wires[0]).1, wires[1..]);
      if |wires[0]| == FRAME_WIRE_SIZE {
        assert ChainAfter(c, ck, 1) == Chain(c, ck) by { assert ChainAfter(c, ck, 0) == ck; }
        ChainCompose(c, ck, 1, FullFrames(wires[1..]));
      }
    }
  }

  /** Frames sealed at one of the first N positions do not open at another of them. */
  ghost predicate Separates(c: Crypto, ck: Bytes, N: nat) {
    forall i: nat, j: nat, n, p {:trigger c.open(FrameKey(c, ck, j), n, c.seal(FrameKey(c, ck, i), n, p))} ::
      i < N && j < N && i != j ==> c.open(FrameKey(c, ck, j), n, c.seal(FrameKey(c, ck, i), n, p)) == None
  }

  lemma OpenedElsewhere(c: Crypto, ck: Bytes, N: nat, i: nat, j: nat, nonce: Bytes, p: Bytes)
    requires Ideal(c) && Separates(c, ck, N) && i < N && j < N && i != j && |nonce| == NONCE_SIZE
    ensures |Wire(c, FrameKey(c, ck, i), nonce, p)| == FRAME_WIRE_SIZE
    ensures Opened(c, FrameKey(c, ck, j), Wire(c, FrameKey(c, ck, i), nonce, p)) == Err(BadTag)
  {
    hide FrameKey, Pad;
    var ct, wire := c.seal(FrameKey(c, ck, i), nonce, Pad(p)), Wire(c, FrameKey(c, ck, i), nonce, p);
    assert wire[..NONCE_SIZE] == nonce && wire[NONCE_SIZE..] == ct;
  }

  /** Frame i, made by a sender that started at the same key, is answered by its plaintext
      exactly when the receiver has consumed i full-size frames, whatever they held, and by
      a bad tag at every other position. */
  lemma FrameOpensAtItsPosition(c: Crypto, ck: Bytes, N: nat, earlier: seq<Bytes>, i: nat, msg: Message)
    requires Ideal(c) && Separates(c, ck, N) && |msg.nonce| == NONCE_SIZE && i < N && FullFrames(earlier) < N
    ensures var r := Received(c, ReceiverChain(c, ck, earlier), Wire(c, FrameKey(c, ck, i), msg.nonce, msg.text)).0;
      && (r.Ok? <==> FullFrames(earlier) == i)
      && r == if FullFrames(earlier) == i then Ok(Cut(msg.text, MAX_PLAINTEXT - 1)) else Err(BadTag)
  {
    hide FrameKey, Wire, Opened, Separates;
    var j := FullFrames(earlier);
    ReceiverPosition(c, ck, earlier);
    FrameKeyShift(c, ck, j, 0);
    OpenedWire(c, FrameKey(c, ck, i), msg.nonce, msg.text);
    if j != i { OpenedElsewhere(c, ck, N, i, j, msg.nonce, msg.text); }
  }

  lemma {:induction false} AnswerAt(c: Crypto, ck: Bytes, wires: seq<Bytes>, k: nat)
    requires Ideal(c) && k < |wires|
    ensures Answers(c, ck, wires)[k] == Received(c, ReceiverChain(c, ck, wires[..k]), wires[k]).0
    decreases |wires|
  {
    hide Received;
    if k > 0 {
      AnswerAt(c, Received(c, ck, wires[0]).1, wires[1..], k - 1);
      assert wires[..k][1..] == wires[1..][..k - 1];
    }
  }

  lemma {:induction false} WireAt(c: Crypto, ck: Bytes, ms: seq<Message>, k: nat)
    requires k < |ms|
    ensures Wires(c, ck, ms)[k] == Wire(c, FrameKey(c, ck, k), ms[k].nonce, ms[k].text)
    decreases |ms|
  {
    hide Wire, FrameKey;
    if k > 0 {
      WireAt(c, Chain(c, ck), ms[1..], k - 1);
      FirstStep(c, ck);
      FrameKeyShift(c, ck, 1, k - 1);
    }
  }

  /** In any list of frames that arrives, a genuine frame is answered by its plaintext if
      and only if as many full-size frames came before it as were sent before it. */
  lemma DeliveredFrameOpensIff(c: Crypto, ck: Bytes, N: nat, ms: seq<Message>, wires: seq<Bytes>, i: nat, k: nat)
    requires Ideal(c) && Separates(c, ck, N) && GoodNonces(ms) && |ms| <= N
    requires i < |ms| && k < |wires| && wires[k] == Wires(c, ck, ms)[i] && FullFrames(wires[..k]) < N
    ensures Answers(c, ck, wires)[k].Ok? <==> FullFrames(wires[..k]) == i
  {
    hide Received, Wire, Answers, ReceiverChain, Wires, Separates, FrameKey;
    AnswerAt(c, ck, wires, k);
    WireAt(c, ck, ms, i);
    FrameOpensAtItsPosition(c, ck, N, wires[..k], i, ms[i]);
  }

  /** One forged full-size frame, put first, costs every genuine frame after it. */
  lemma ForgeryDesynchronises(c: Crypto, ck: Bytes, N: nat, forged: Bytes, ms: seq<Message>, k: nat)
    requires Ideal(c) && Separates(c, ck, N) && GoodNonces(ms) && |ms| < N
    requires |forged| == FRAME_WIRE_SIZE && k < |ms|
    ensures Answers(c, ck, [forged] + Wires(c, ck, ms))[k + 1] == Err(BadTag)
  {
    hide Received, Wire, Answers, ReceiverChain, Wires, Separates, FrameKey;
    var ws := Wires(c, ck, ms);
    var all := [forged] + ws;
    WiresFull(c, ck, ms, k);
    assert all[..k + 1] == [forged] + ws[..k];
    assert all[..k + 1][1..] == ws[..k];
    AnswerAt(c, ck, all, k + 1);
    WireAt(c, ck, ms, k);
    FrameOpensAtItsPosition(c, ck, N, all[..k + 1], k, ms[k]);
  }

  lemma {:induction false} WiresFull(c: Crypto, ck: Bytes, ms: seq<Message>, k: nat)
    requires Ideal(c) && GoodNonces(ms) && k <= |ms|
    ensures FullFrames(Wires(c, ck, ms)[..k]) == k
    decreases k
  {
    hide Wire, FrameKey;
    if k > 0 {
      WiresFull(c, Chain(c, ck), ms[1..], k - 1);
      OpenedWire(c, FrameKey(c, ck, 0), ms[0].nonce, ms[0].text);
      assert Wires(c, ck, ms)[..k][1..] == Wires(c, Chain(c, ck), ms[1..])[..k - 1];
    }
  }

  lemma FirstStep(c: Crypto, ck: Bytes)
    ensures ChainAfter(c, ck, 1) == Chain(c, ck)
  {
    assert ChainAfter(c, ck, 0) == ck;
  }

  // ----- The hypotheses can be met together

  function ToyTag(k: Bytes): (t: Bytes)
    ensures |t| == TAG_SIZE
  {
    Cut(k, TAG_SIZE) + ZeroBytes(TAG_SIZE - |Cut(k, TAG_SIZE)|)
  }

  /** A toy: the chain key counts frames, the frame key names the count, and the tag
      names the frame key. */
  function Toy(): Crypto {
    Crypto((k, info, salt, n) => if info == [1] then k + [0] else [|k| % 256] + ZeroBytes(TAG_SIZE - 1),
           (k, msg) => [],
           (k, n, p) => p + ToyTag(k),
           (k, n, t) => if |t| >= TAG_SIZE && t[|t| - TAG_SIZE..] == ToyTag(k) then Some(t[..|t| - TAG_SIZE]) else None,
           name => [])
  }

  lemma {:induction false} ToyChain(n: nat)
    ensures |ChainAfter(Toy(), [], n)| == n
  {
    if n > 0 { ToyChain(n - 1); }
  }

  lemma ToySeparates()
    ensures Ideal(Toy()) && Separates(Toy(), [], 255)
  {
    forall k: Bytes, n: Bytes, p: Bytes ensures |Toy().seal(k, n, p)| == |p| + TAG_SIZE && Toy().open(k, n, Toy().seal(k, n, p)) == Some(p) {
      var t := p + ToyTag(k);
      assert t[|t| - TAG_SIZE..] == ToyTag(k) && t[..|t| - TAG_SIZE] == p;
    }
    forall i: nat, j: nat, n: Bytes, p: Bytes | i < 255 && j < 255 && i != j
      ensures Toy().open(FrameKey(Toy(), [], j), n, Toy().seal(FrameKey(Toy(), [], i), n, p)) == None
    {
      ToyChain(i + 1); ToyChain(j + 1);
      var ki, kj := FrameKey(Toy(), [], i), FrameKey(Toy(), [], j);
      assert ki[0] == i + 1 && kj[0] == j + 1;
      assert ToyTag(ki)[0] == i + 1 && ToyTag(kj)[0] == j + 1;
      var t := p + ToyTag(ki);
      assert t[|t| - TAG_SIZE..] == ToyTag(ki);
    }
  }

  /** In order and without loss: every wire is 256 bytes, the chain keys agree after
      every frame, and the i-th answer is the i-th plaintext cut to 227 bytes. */
  lemma {:induction false} Lockstep(c: Crypto, ck: Bytes, ms: seq<Message>)
    requires Ideal(c) && GoodNonces(ms)
    ensures forall i :: 0 <= i < |ms| ==> |Wires(c, ck, ms)[i]| == FRAME_WIRE_SIZE
    ensures ReceiverChain(c, ck, Wires(c, ck, ms)) == ChainAfter(c, ck, |ms|)
    ensures forall i :: 0 <= i < |ms| ==>
      Answers(c, ck, Wires(c, ck, ms))[i] == Ok(Cut(ms[i].text, MAX_PLAINTEXT - 1))
    decreases |ms|
  {
    hide Wire, Opened, Ideal, FrameKey, Chain;
    if ms != [] {
      var m := ms[0];
      Lockstep(c, Chain(c, ck), ms[1..]);
      OpenedWire(c, FrameKey(c, ck, 0), m.nonce, m.text);
      var ws := Wires(c, ck, ms);
      assert ws[0] == Wire(c, FrameKey(c, ck, 0), m.nonce, m.text);
      assert ws[1..] == Wires(c, Chain(c, ck), ms[1..]);
      FirstStep(c, ck);
      ChainCompose(c, ck, 1, |ms| - 1);
    }
  }

  // ----- The objects

  class DoubleRatchetSession {
    const crypto: Crypto
    var chainKey: Bytes
    var msgIdx: nat

    constructor (c: Crypto, ck: Bytes)
      ensures crypto == c && chainKey == ck && msgIdx == 0
    {
      crypto := c;
      chainKey := ck;
      msgIdx := 0;
    }

    method NextMessageKey() returns (key: Bytes)
      modifies this
      ensures chainKey == crypto.hkdf(old(chainKey), [1], CHAIN_LABEL, 32) == Chain(crypto, old(chainKey))
      ensures key == crypto.hkdf(chainKey, [2], MSG_LABEL, 32)
      ensures key == FrameKey(crypto, old(chainKey), 0) && msgIdx == old(msgIdx) + 1
    {
      FirstStep(crypto, chainKey);
      chainKey := crypto.hkdf(chainKey, [1], CHAIN_LABEL, 32);
      key := crypto.hkdf(chainKey, [2], MSG_LABEL, 32);
      msgIdx := msgIdx + 1;
    }
  }

  class SignalSession {
    const crypto: Crypto
    const local: DoubleRatchetSession
    const remote: DoubleRatchetSession

    ghost predicate Valid() {
      Ideal(crypto) && local.crypto == crypto && remote.crypto == crypto && local != remote
    }

    constructor (c: Crypto, sendKey: Bytes, recvKey: Bytes)
      requires Ideal(c)
      ensures Valid() && crypto == c && fresh(local) && fresh(remote)
      ensures local.chainKey == sendKey && remote.chainKey == recvKey
    {
      crypto := c;
      local := new DoubleRatchetSession(c, sendKey);
      remote := new DoubleRatchetSession(c, recvKey);
    }

    /** A 256-byte frame under the next key; the size check can never fail. */
    method Encrypt(plaintext: Bytes, nonce: Bytes) returns (wire: Result<Bytes>)
      requires Valid() && |nonce| == NONCE_SIZE
      modifies local
      ensures wire == Ok(Wire(crypto, FrameKey(crypto, old(local.chainKey), 0), nonce, plaintext))
      ensures |wire.value| == FRAME_WIRE_SIZE && wire.value[..12] == nonce
      ensures wire.value[12..] == crypto.seal(FrameKey(crypto, old(local.chainKey), 0), nonce, Pad(plaintext))
      ensures local.chainKey == Chain(crypto, old(local.chainKey)) && local.msgIdx == old(local.msgIdx) + 1
    {
      hide FrameKey, Chain;
      var padded := Pad(plaintext);
      var key := local.NextMessageKey();
      var ct := crypto.seal(key, nonce, padded);
      var w := nonce + ct;
      if |w| != FRAME_WIRE_SIZE {
        assert false;
      }
      wire := Ok(w);
    }

    /** Wrong sizes are refused before the ratchet moves; a bad tag is found after. */
    method Decrypt(wire: Bytes) returns (r: Result<Bytes>)
      requires Valid()
      modifies remote
      ensures (r, remote.chainKey) == Received(crypto, old(remote.chainKey), wire)
      ensures remote.msgIdx == old(remote.msgIdx) + if |wire| == FRAME_WIRE_SIZE then 1 else 0
    {
      hide FrameKey, Chain;
      if |wire| != FRAME_WIRE_SIZE {
        return Err(BadFrameSize);
      }
      var nonce, ct := wire[..NONCE_SIZE], wire[NONCE_SIZE..];
      var key := remote.NextMessageKey();
      match crypto.open(key, nonce, ct)
      case None => r := Err(BadTag);
      case Some(padded) => r := Ok(Unpad(padded));
    }
  }

  /** One frame between two live sessions whose keys agree: the text arrives and the
      keys agree again. */
  method Transmit(a: SignalSession, b: SignalSession, p: Bytes, nonce: Bytes) returns (r: Result<Bytes>)
    requires a.Valid() && b.Valid() && a.crypto == b.crypto && a.local != b.remote
    requires |nonce| == NONCE_SIZE && a.local.chainKey == b.remote.chainKey
    modifies a.local, b.remote
    ensures r == Ok(Cut(p, MAX_PLAINTEXT - 1)) && a.local.chainKey == b.remote.chainKey
  {
    OpenedWire(a.crypto, FrameKey(a.crypto, a.local.chainKey, 0), nonce, p);
    var wire := a.Encrypt(p, nonce);
    r := b.Decrypt(wire.value);
  }
}
