/** The group session: one key per epoch from the member set, and counted nonces. */
module GroupModel {
  import opened Bytes
  import opened Sorting

  const MAX_MEMBERS := 50

  /** A dictionary in insertion order. */
  type Members = seq<(string, Bytes)>

  ghost predicate Distinct(ms: Members) {
    forall i, j :: 0 <= i < j < |ms| ==> ms[i].0 != ms[j].0
  }

  ghost function Names(ms: Members): set<string> {
    set i | 0 <= i < |ms| :: ms[i].0
  }

  function IndexOf(ms: Members, id: string): (k: nat)
    ensures k <= |ms|
    ensures k < |ms| ==> ms[k].0 == id
    ensures forall i :: 0 <= i < k ==> ms[i].0 != id
  {
    if ms == [] || ms[0].0 == id then 0 else 1 + IndexOf(ms[1..], id)
  }

  /** Assigning to a key keeps its place; a new key goes last. */
  function Put(ms: Members, id: string, pk: Bytes): (r: Members)
    ensures Names(r) == Names(ms) + {id}
    ensures Distinct(ms) ==> Distinct(r)
    ensures |r| <= |ms| + 1
  {
    var k := IndexOf(ms, id);
    var r := if k < |ms| then ms[k := (id, pk)] else ms + [(id, pk)];
    PutNames(ms, id, pk, k, r);
    r
  }

  lemma PutNames(ms: Members, id: string, pk: Bytes, k: nat, r: Members)
    requires k == IndexOf(ms, id) && r == if k < |ms| then ms[k := (id, pk)] else ms + [(id, pk)]
    ensures Names(r) == Names(ms) + {id}
  {
    assert r[k].0 == id;
    forall x | x in Names(ms) ensures x in Names(r) {
      var i :| 0 <= i < |ms| && ms[i].0 == x;
      assert r[i].0 == x;
    }
  }

  function Pop(ms: Members, id: string): (r: Members)
    ensures Distinct(ms) ==> Names(r) == Names(ms) - {id} && Distinct(r)
    ensures |r| <= |ms|
  {
    var k := IndexOf(ms, id);
    var r := if k < |ms| then ms[..k] + ms[k + 1..] else ms;
    PopNames(ms, id, k, r);
    r
  }

  lemma PopNames(ms: Members, id: string, k: nat, r: Members)
    requires k == IndexOf(ms, id) && r == if k < |ms| then ms[..k] + ms[k + 1..] else ms
    ensures Distinct(ms) ==> Names(r) == Names(ms) - {id} && Distinct(r)
  {
    if Distinct(ms) {
      hide IndexOf;
      forall x | x in Names(ms) && x != id ensures x in Names(r) { PopKeeps(ms, k, id, r, x); }
      forall x | x in Names(r) ensures x in Names(ms) && x != id { PopOnlyKeeps(ms, k, id, r, x); }
    }
  }

  lemma PopKeeps(ms: Members, k: nat, id: string, r: Members, x: string)
    requires k <= |ms| && (k < |ms| ==> ms[k].0 == id)
    requires r == if k < |ms| then ms[..k] + ms[k + 1..] else ms
    requires x in Names(ms) && x != id
    ensures x in Names(r)
  {
    var i :| 0 <= i < |ms| && ms[i].0 == x;
    assert r[if k < |ms| && i > k then i - 1 else i].0 == x;
  }

  lemma PopOnlyKeeps(ms: Members, k: nat, id: string, r: Members, x: string)
    requires k <= |ms| && (k < |ms| ==> ms[k].0 == id) && Distinct(ms)
    requires forall i :: 0 <= i < k ==> ms[i].0 != id
    requires r == if k < |ms| then ms[..k] + ms[k + 1..] else ms
    requires x in Names(r)
    ensures x in Names(ms) && x != id
  {
    var i :| 0 <= i < |r| && r[i].0 == x;
    assert ms[if k < |ms| && i >= k then i + 1 else i].0 == x;
  }

  // ----- The epoch key

  function Encoded(c: Crypto, ms: Members): (r: seq<Bytes>)
    ensures |r| == |ms|
  {
    seq(|ms|, i requires 0 <= i < |ms| => c.encode(ms[i].0))
  }

  function Join(s: seq<Bytes>): Bytes {
    if s == [] then [] else s[0] + Join(s[1..])
  }

  function EpochKey(c: Crypto, secret: Bytes, ids: seq<Bytes>): Bytes {
    c.hmac(secret, Join(Sort(ids)))
  }

  lemma HasName(ms: Members)
    requires ms != []
    ensures Names(ms) != {}
  {
    assert ms[0].0 in Names(ms);
  }

  /** Taking one member out of the dictionary takes its encoding out. */
  lemma EncodedWithout(c: Crypto, ms: Members, k: nat)
    requires k < |ms|
    ensures multiset(Encoded(c, ms)) == multiset(Encoded(c, ms[..k] + ms[k + 1..])) + multiset{c.encode(ms[k].0)}
  {
    assert Encoded(c, ms) == Encoded(c, ms[..k]) + [c.encode(ms[k].0)] + Encoded(c, ms[k + 1..]);
    assert Encoded(c, ms[..k] + ms[k + 1..]) == Encoded(c, ms[..k]) + Encoded(c, ms[k + 1..]);
  }

  lemma IndexOfName(ms: Members, id: string)
    requires id in Names(ms)
    ensures IndexOf(ms, id) < |ms| && ms[IndexOf(ms, id)].0 == id
  {
    var i :| 0 <= i < |ms| && ms[i].0 == id;
  }

  /** Two insertion orders of the same names hold the same encoded names. */
  lemma {:induction false} SameNamesSameEncodings(c: Crypto, a: Members, b: Members)
    requires Distinct(a) && Distinct(b) && Names(a) == Names(b)
    ensures multiset(Encoded(c, a)) == multiset(Encoded(c, b))
    decreases |a|
  {
    hide Encoded, Distinct, Names, IndexOf;
    if a == [] {
      EmptyNames(b);
    } else {
      var id := a[0].0;
      FirstName(a);
      IndexOfName(a, id); IndexOfName(b, id);
      FirstIndex(a);
      var k := IndexOf(b, id);
      PopNames(a, id, 0, a[..0] + a[1..]);
      PopNames(b, id, k, b[..k] + b[k + 1..]);
      EncodedWithout(c, a, 0); EncodedWithout(c, b, k);
      SameNamesSameEncodings(c, a[..0] + a[1..], b[..k] + b[k + 1..]);
    }
  }

  lemma EmptyNames(b: Members)
    requires Names([]) == Names(b)
    ensures b == []
  {
    if b != [] { HasName(b); }
  }

  lemma FirstName(ms: Members)
    requires ms != []
    ensures ms[0].0 in Names(ms)
  {}

  lemma FirstIndex(ms: Members)
    requires ms != []
    ensures IndexOf(ms, ms[0].0) == 0
  {}

  /** The key depends on the secret and the set of names only. */
  lemma KeyOfSet(c: Crypto, secret: Bytes, a: Members, b: Members)
    requires Distinct(a) && Distinct(b) && Names(a) == Names(b)
    ensures EpochKey(c, secret, Encoded(c, a)) == EpochKey(c, secret, Encoded(c, b))
  {
    SameNamesSameEncodings(c, a, b);
    SortCanonical(Encoded(c, a), Encoded(c, b));
  }

  // ----- The key tells the members apart

  ghost predicate AllOfLength(s: seq<Bytes>, len: nat) {
    forall i :: 0 <= i < |s| ==> |s[i]| == len
  }

  /** Names of one length can be read back from their concatenation. */
  lemma {:induction false} JoinDecodes(s: seq<Bytes>, t: seq<Bytes>, len: nat)
    requires len > 0 && AllOfLength(s, len) && AllOfLength(t, len) && Join(s) == Join(t)
    ensures s == t
    decreases |s|
  {
    if s != [] && t != [] {
      assert s[0] == Join(s)[..len] && t[0] == Join(t)[..len];
      assert Join(s[1..]) == Join(s)[len..] && Join(t[1..]) == Join(t)[len..];
      JoinDecodes(s[1..], t[1..], len);
      assert s == [s[0]] + s[1..] && t == [t[0]] + t[1..];
    }
  }

  lemma SortedLengths(s: seq<Bytes>, len: nat)
    requires AllOfLength(s, len)
    ensures AllOfLength(Sort(s), len)
  {
    forall i | 0 <= i < |Sort(s)| ensures |Sort(s)[i]| == len {
      assert Sort(s)[i] in multiset(Sort(s));
      assert Sort(s)[i] in s;
    }
  }

  /** HMAC under the secret has no collision at these two messages. */
  ghost predicate Tells(c: Crypto, secret: Bytes, x: Bytes, y: Bytes) {
    c.hmac(secret, x) == c.hmac(secret, y) ==> x == y
  }

  /** The key is that of the sorted names joined: unless HMAC collides, it tells two lists
      of encoded names of one length apart exactly when they hold different names. */
  lemma EpochKeyIff(c: Crypto, secret: Bytes, a: seq<Bytes>, b: seq<Bytes>, len: nat)
    requires len > 0 && AllOfLength(a, len) && AllOfLength(b, len)
    requires Tells(c, secret, Join(Sort(a)), Join(Sort(b)))
    ensures EpochKey(c, secret, a) == EpochKey(c, secret, b) <==> multiset(a) == multiset(b)
  {
    hide Sort, Join;
    if multiset(a) == multiset(b) { SortCanonical(a, b); }
    if EpochKey(c, secret, a) == EpochKey(c, secret, b) {
      SortedLengths(a, len); SortedLengths(b, len);
      JoinDecodes(Sort(a), Sort(b), len);
    }
  }

  lemma JoinOne(ids: seq<Bytes>)
    requires |ids| == 1
    ensures Join(ids) == ids[0]
  {
    assert Join(ids[1..]) == [] && ids[0] + [] == ids[0];
  }

  /** Written out: names already in order are joined as they are. */
  lemma EpochKeyOfSorted(c: Crypto, secret: Bytes, ids: seq<Bytes>)
    requires Sorted(ids)
    ensures EpochKey(c, secret, ids) == c.hmac(secret, Join(ids))
    ensures |ids| == 1 ==> EpochKey(c, secret, ids) == c.hmac(secret, ids[0])
  {
    hide Sort, Sorted;
    SortSorted(ids);
    SortedUnique(Sort(ids), ids);
    if |ids| == 1 { JoinOne(ids); }
  }

  /** For names of any lengths, what the key tells apart is their sorted concatenation. */
  lemma KeysEqualIff(c: Crypto, secret: Bytes, a: seq<Bytes>, b: seq<Bytes>)
    requires Tells(c, secret, Join(Sort(a)), Join(Sort(b)))
    ensures EpochKey(c, secret, a) == EpochKey(c, secret, b) <==> Join(Sort(a)) == Join(Sort(b))
  {}

  /** One length is needed: "a", "bc" and "ab", "c" are joined to the same string. */
  lemma JoinsCanAgree(c: Crypto, secret: Bytes)
    ensures var a: seq<Bytes>, b: seq<Bytes> := [[97], [98, 99]], [[97, 98], [99]];
      multiset(a) != multiset(b) && EpochKey(c, secret, a) == EpochKey(c, secret, b)
  {
    hide Sort;
    var a: seq<Bytes>, b: seq<Bytes> := [[97], [98, 99]], [[97, 98], [99]];
    assert a[0] in multiset(a) && a[0] !in b;
    EpochKeyOfSorted(c, secret, a); EpochKeyOfSorted(c, secret, b);
    JoinTwo(a); JoinTwo(b);
    assert a[0] + a[1] == b[0] + b[1] == [97, 98, 99];
  }

  lemma JoinTwo(ids: seq<Bytes>)
    requires |ids| == 2
    ensures Join(ids) == ids[0] + ids[1]
  {
    JoinOne(ids[1..]);
  }

  /** Names keep apart when encoded, to byte strings of one length. */
  ghost predicate Encodes(c: Crypto, names: set<string>, len: nat) {
    && len > 0 && (forall x <- names :: |c.encode(x)| == len)
    && forall x <- names, y <- names :: c.encode(x) == c.encode(y) ==> x == y
  }

  lemma NamesWithin(c: Crypto, a: Members, b: Members, names: set<string>, len: nat)
    requires Encodes(c, names, len) && Names(a) <= names && Names(b) <= names
    requires multiset(Encoded(c, a)) == multiset(Encoded(c, b))
    ensures Names(a) <= Names(b)
  {
    forall x | x in Names(a) ensures x in Names(b) {
      var i :| 0 <= i < |a| && a[i].0 == x;
      assert Encoded(c, a)[i] == c.encode(x);
      assert c.encode(x) in multiset(Encoded(c, b));
      var j :| 0 <= j < |b| && Encoded(c, b)[j] == c.encode(x);
      assert b[j].0 in Names(b);
    }
  }

  lemma EncodedLengths(c: Crypto, ms: Members, names: set<string>, len: nat)
    requires Encodes(c, names, len) && Names(ms) <= names
    ensures len > 0 && AllOfLength(Encoded(c, ms), len)
  {
    forall i | 0 <= i < |ms| ensures |Encoded(c, ms)[i]| == len { assert ms[i].0 in Names(ms); }
  }

  /** Two member lists have one key if and only if they name the same members. */
  lemma KeyIffSameMembers(c: Crypto, secret: Bytes, a: Members, b: Members, len: nat)
    requires Distinct(a) && Distinct(b) && Encodes(c, Names(a) + Names(b), len)
    requires Tells(c, secret, Join(Sort(Encoded(c, a))), Join(Sort(Encoded(c, b))))
    ensures EpochKey(c, secret, Encoded(c, a)) == EpochKey(c, secret, Encoded(c, b)) <==> Names(a) == Names(b)
  {
    hide Encoded, EpochKey, Tells, Distinct, Names, Encodes, Sort, Join;
    var names := Names(a) + Names(b);
    EncodedLengths(c, a, names, len); EncodedLengths(c, b, names, len);
    EpochKeyIff(c, secret, Encoded(c, a), Encoded(c, b), len);
    if Names(a) == Names(b) { SameNamesSameEncodings(c, a, b); }
    if multiset(Encoded(c, a)) == multiset(Encoded(c, b)) {
      NamesWithin(c, a, b, names, len); NamesWithin(c, b, a, names, len);
    }
  }

  // ----- Nonces

  /** n bytes, most significant first, as struct.pack writes them. */
  function BigEndian(v: nat, n: nat): (r: Bytes)
    ensures |r| == n
  {
    if n == 0 then [] else BigEndian(v / 256, n - 1) + [v % 256]
  }

  function Decode(s: Bytes): nat {
    if s == [] then 0 else Decode(s[..|s| - 1]) * 256 + s[|s| - 1]
  }

  ghost function Power256(n: nat): nat {
    if n == 0 then 1 else 256 * Power256(n - 1)
  }

  lemma {:induction false} DecodeBigEndian(v: nat, n: nat)
    requires v < Power256(n)
    ensures Decode(BigEndian(v, n)) == v
  {
    if n > 0 {
      DecodeBigEndian(v / 256, n - 1);
      assert BigEndian(v, n)[..n - 1] == BigEndian(v / 256, n - 1);
    }
  }

  const EPOCH_LIMIT: nat := 0x1_0000_0000
  const SEQ_LIMIT: nat := 0x1_0000_0000_0000_0000

  /** Four bytes of epoch and eight of sequence number; larger values cannot be packed. */
  function SeqNonce(epoch: nat, seqNo: nat): Result<Bytes> {
    if epoch >= EPOCH_LIMIT || seqNo >= SEQ_LIMIT then Err(FieldOverflow)
    else Ok(BigEndian(epoch, 4) + BigEndian(seqNo, 8))
  }

  /** The pair can be read back from the nonce, so different pairs never share one. */
  lemma NonceDecodes(epoch: nat, seqNo: nat)
    requires SeqNonce(epoch, seqNo).Ok?
    ensures var n := SeqNonce(epoch, seqNo).value;
      |n| == NONCE_SIZE && Decode(n[..4]) == epoch && Decode(n[4..]) == seqNo
  {
    assert Power256(4) == EPOCH_LIMIT;
    assert Power256(8) == SEQ_LIMIT;
    DecodeBigEndian(epoch, 4); DecodeBigEndian(seqNo, 8);
    var n := SeqNonce(epoch, seqNo).value;
    assert n[..4] == BigEndian(epoch, 4) && n[4..] == BigEndian(seqNo, 8);
  }

  // ----- Padding

  function PadZeros(p: Bytes): (r: Bytes)
    ensures |r| == MAX_PLAINTEXT
  {
    var q := Cut(p, MAX_PLAINTEXT);
    q + ZeroBytes(MAX_PLAINTEXT - |q|)
  }

  function StripZeros(p: Bytes): Bytes {
    if p != [] && p[|p| - 1] == 0 then StripZeros(p[..|p| - 1]) else p
  }

  lemma {:induction false} StripAdded(p: Bytes, n: nat)
    ensures StripZeros(p + ZeroBytes(n)) == StripZeros(p)
  {
    if n == 0 {
      assert p + ZeroBytes(0) == p;
    } else {
      assert (p + ZeroBytes(n))[..|p| + n - 1] == p + ZeroBytes(n - 1);
      StripAdded(p, n - 1);
    }
  }

  lemma {:induction false} StripShortens(p: Bytes)
    ensures |StripZeros(p)| <= |p|
    ensures StripZeros(p) == p <==> p == [] || p[|p| - 1] != 0
  {
    if p != [] && p[|p| - 1] == 0 { StripShortens(p[..|p| - 1]); }
  }

  /** Stripping removes exactly the trailing zeros. */
  lemma {:induction false} StripIsPrefix(p: Bytes)
    ensures var q := StripZeros(p);
      && q <= p && (q != [] ==> q[|q| - 1] != 0)
      && forall k :: |q| <= k < |p| ==> p[k] == 0
  {
    if p != [] && p[|p| - 1] == 0 { StripIsPrefix(p[..|p| - 1]); }
  }

  /** And that determines the result. */
  lemma StrippedUnique(p: Bytes, q: Bytes, r: Bytes)
    requires q <= p && (q != [] ==> q[|q| - 1] != 0) && forall k :: |q| <= k < |p| ==> p[k] == 0
    requires r <= p && (r != [] ==> r[|r| - 1] != 0) && forall k :: |r| <= k < |p| ==> p[k] == 0
    ensures q == r
  {
    StripsEnough(p, q, |r|); StripsEnough(p, r, |q|);
  }

  lemma StripsEnough(p: Bytes, q: Bytes, n: nat)
    requires q <= p && (q != [] ==> q[|q| - 1] != 0) && forall k :: n <= k < |p| ==> p[k] == 0
    ensures |q| <= n
  {
    if q != [] { assert p[|q| - 1] == q[|q| - 1]; }
  }

  /** What padding and stripping leave of a plaintext. */
  lemma StripPad(p: Bytes)
    ensures StripZeros(PadZeros(p)) == StripZeros(Cut(p, MAX_PLAINTEXT))
  {
    var q := Cut(p, MAX_PLAINTEXT);
    StripAdded(q, MAX_PLAINTEXT - |q|);
  }

  /** So a plaintext survives exactly when it fits and does not end in a zero byte. */
  lemma SurvivesExactlyWhen(p: Bytes)
    ensures StripZeros(PadZeros(p)) == p <==> |p| <= MAX_PLAINTEXT && (p == [] || p[|p| - 1] != 0)
  {
    StripPad(p);
    StripShortens(Cut(p, MAX_PLAINTEXT));
  }

  /** An answer for what opening gave: a bad tag, or all of the text but trailing zeros. */
  ghost predicate Stripped(r: Result<Bytes>, text: Option<Bytes>) {
    match text
    case None => r == Err(BadTag)
    case Some(p) => r.Ok? && r.value <= p && forall k :: |r.value| <= k < |p| ==> p[k] == 0
  }

  // ----- The session on values

  datatype Group = Group(members: Members, epoch: nat, key: Bytes, seqNo: nat)

  datatype GroupOp = Add(id: string, pk: Bytes) | Remove(id: string) | Send(text: Bytes)

  ghost predicate GroupReady(c: Crypto, secret: Bytes, g: Group) {
    Distinct(g.members) && g.key == EpochKey(c, secret, Encoded(c, g.members))
  }

  ghost function Rotated(c: Crypto, secret: Bytes, g: Group, ms: Members): Group {
    Group(ms, g.epoch + 1, EpochKey(c, secret, Encoded(c, ms)), 0)
  }

  /** The session after an operation; a full group refuses a join and a nonce that does
      not fit refuses a frame, both without any change. */
  ghost function GroupNext(c: Crypto, secret: Bytes, g: Group, op: GroupOp): Group {
    match op
    case Add(id, pk) =>
      if |g.members| >= MAX_MEMBERS then g else Rotated(c, secret, g, Put(g.members, id, pk))
    case Remove(id) => Rotated(c, secret, g, Pop(g.members, id))
    case Send(_) => if SeqNonce(g.epoch, g.seqNo).Err? then g else g.(seqNo := g.seqNo + 1)
  }

  ghost function GroupAfter(c: Crypto, secret: Bytes, g: Group, ops: seq<GroupOp>): Group
    decreases |ops|
  {
    if ops == [] then g else GroupAfter(c, secret, GroupNext(c, secret, g, ops[0]), ops[1..])
  }

  /** The nonces of the frames a run sends, in order. */
  ghost function Nonces(c: Crypto, secret: Bytes, g: Group, ops: seq<GroupOp>): seq<Bytes>
    decreases |ops|
  {
    if ops == [] then []
    else
      var rest := Nonces(c, secret, GroupNext(c, secret, g, ops[0]), ops[1..]);
      if ops[0].Send? && SeqNonce(g.epoch, g.seqNo).Ok? then [SeqNonce(g.epoch, g.seqNo).value] + rest else rest
  }

  /** (e, s) comes before the pair read from nonce n, or is it. */
  ghost predicate AtOrAfter(n: Bytes, e: nat, s: nat) {
    |n| == NONCE_SIZE && (Decode(n[..4]) > e || (Decode(n[..4]) == e && Decode(n[4..]) >= s))
  }

  ghost predicate Before(a: Bytes, b: Bytes) {
    |a| == NONCE_SIZE && |b| == NONCE_SIZE &&
    (Decode(a[..4]) < Decode(b[..4]) || (Decode(a[..4]) == Decode(b[..4]) && Decode(a[4..]) < Decode(b[4..])))
  }

  lemma {:induction false} NoncesAtOrAfter(c: Crypto, secret: Bytes, g: Group, ops: seq<GroupOp>)
    ensures forall i :: 0 <= i < |Nonces(c, secret, g, ops)| ==> AtOrAfter(Nonces(c, secret, g, ops)[i], g.epoch, g.seqNo)
    decreases |ops|
  {
    hide SeqNonce, Decode, EpochKey, Encoded, Put, Pop;
    if ops != [] {
      NoncesAtOrAfter(c, secret, GroupNext(c, secret, g, ops[0]), ops[1..]);
      if SeqNonce(g.epoch, g.seqNo).Ok? { NonceDecodes(g.epoch, g.seqNo); }
    }
  }

  ghost predicate Increasing(ns: seq<Bytes>) {
    forall i, j :: 0 <= i < j < |ns| ==> Before(ns[i], ns[j])
  }

  lemma Prepend(first: Bytes, rest: seq<Bytes>)
    requires Increasing(rest) && forall j :: 0 <= j < |rest| ==> Before(first, rest[j])
    ensures Increasing([first] + rest)
  {
    hide Before;
  }

  /** Over any interleaving of joins, leaves and frames, the nonces of one session
      increase strictly. */
  lemma {:induction false} NoncesIncrease(c: Crypto, secret: Bytes, g: Group, ops: seq<GroupOp>)
    ensures Increasing(Nonces(c, secret, g, ops))
    decreases |ops|
  {
    hide SeqNonce, Decode, EpochKey, Encoded, Put, Pop, Increasing;
    if ops == [] {
      NoneIncreasing();
    } else {
      var next := GroupNext(c, secret, g, ops[0]);
      NoncesIncrease(c, secret, next, ops[1..]);
      if ops[0].Send? && SeqNonce(g.epoch, g.seqNo).Ok? {
        NonceDecodes(g.epoch, g.seqNo);
        NoncesAtOrAfter(c, secret, next, ops[1..]);
        var first, rest := SeqNonce(g.epoch, g.seqNo).value, Nonces(c, secret, next, ops[1..]);
        forall j | 0 <= j < |rest| ensures Before(first, rest[j]) {
          assert AtOrAfter(rest[j], next.epoch, next.seqNo);
        }
        Prepend(first, rest);
      }
    }
  }

  /** Frames sent one after another carry the epoch and consecutive numbers. */
  lemma {:induction false} ConsecutiveNonces(c: Crypto, secret: Bytes, g: Group, ops: seq<GroupOp>, i: nat)
    requires i < |ops| && forall j :: 0 <= j < |ops| ==> ops[j].Send?
    requires g.epoch < 0x1_0000_0000 && g.seqNo + |ops| <= 0x1_0000_0000_0000_0000
    ensures var ns := Nonces(c, secret, g, ops);
      |ns| == |ops| && |ns[i]| == 12 && Decode(ns[i][..4]) == g.epoch && Decode(ns[i][4..]) == g.seqNo + i
    decreases |ops|
  {
    hide Decode, EpochKey, Encoded, Put, Pop;
    NonceDecodes(g.epoch, g.seqNo);
    var next := GroupNext(c, secret, g, ops[0]);
    if i > 0 {
      ConsecutiveNonces(c, secret, next, ops[1..], i - 1);
    } else if |ops| > 1 {
      ConsecutiveNonces(c, secret, next, ops[1..], 0);
    }
  }

  lemma NoneIncreasing()
    ensures Increasing([])
  {}

  /** So no nonce is ever used twice. */
  lemma NoncesNeverRepeat(c: Crypto, secret: Bytes, g: Group, ops: seq<GroupOp>)
    ensures var ns := Nonces(c, secret, g, ops);
      forall i, j :: 0 <= i < |ns| && 0 <= j < |ns| && i != j ==> ns[i] != ns[j]
  {
    hide Nonces, Decode;
    NoncesIncrease(c, secret, g, ops);
    var ns := Nonces(c, secret, g, ops);
    forall i, j | 0 <= i < |ns| && 0 <= j < |ns| && i != j ensures ns[i] != ns[j] {
      if i < j { assert Before(ns[i], ns[j]); } else { assert Before(ns[j], ns[i]); }
    }
  }

  /** Every operation keeps the key that of the current member set. */
  lemma {:induction false} KeyInvariant(c: Crypto, secret: Bytes, g: Group, ops: seq<GroupOp>)
    requires GroupReady(c, secret, g)
    ensures GroupReady(c, secret, GroupAfter(c, secret, g, ops))
    decreases |ops|
  {
    hide SeqNonce, EpochKey, Encoded, Put, Pop;
    if ops != [] {
      KeyInvariant(c, secret, GroupNext(c, secret, g, ops[0]), ops[1..]);
    }
  }

  /** Whatever joins and leaves led two sessions with one secret to the same member
      set, they hold the same key. */
  lemma {:induction false} KeyForgetsHistory(c: Crypto, secret: Bytes, g: Group, a: seq<GroupOp>, b: seq<GroupOp>)
    requires GroupReady(c, secret, g)
    requires Names(GroupAfter(c, secret, g, a).members) == Names(GroupAfter(c, secret, g, b).members)
    ensures GroupAfter(c, secret, g, a).key == GroupAfter(c, secret, g, b).key
  {
    hide EpochKey, Encoded;
    KeyInvariant(c, secret, g, a); KeyInvariant(c, secret, g, b);
    KeyOfSet(c, secret, GroupAfter(c, secret, g, a).members, GroupAfter(c, secret, g, b).members);
  }

  /** And exactly the same set: two runs of sessions with one secret end in one key if and
      only if they end with the same members, unless HMAC collides. */
  lemma {:induction false} KeyIffSameOutcome(c: Crypto, secret: Bytes, g: Group, a: seq<GroupOp>, b: seq<GroupOp>, len: nat)
    requires GroupReady(c, secret, g)
    requires var x, y := GroupAfter(c, secret, g, a).members, GroupAfter(c, secret, g, b).members;
      Encodes(c, Names(x) + Names(y), len) && Tells(c, secret, Join(Sort(Encoded(c, x))), Join(Sort(Encoded(c, y))))
    ensures GroupAfter(c, secret, g, a).key == GroupAfter(c, secret, g, b).key
       <==> Names(GroupAfter(c, secret, g, a).members) == Names(GroupAfter(c, secret, g, b).members)
  {
    hide EpochKey, Encoded, Encodes, Tells, Sort, Join, GroupAfter;
    KeyInvariant(c, secret, g, a); KeyInvariant(c, secret, g, b);
    KeyIffSameMembers(c, secret, GroupAfter(c, secret, g, a).members, GroupAfter(c, secret, g, b).members, len);
  }

  /** No run takes a group past 50 members. */
  lemma {:induction false} NeverOverfull(c: Crypto, secret: Bytes, g: Group, ops: seq<GroupOp>)
    requires |g.members| <= 50
    ensures |GroupAfter(c, secret, g, ops).members| <= 50
    decreases |ops|
  {
    hide SeqNonce, EpochKey, Encoded, Put, Pop;
    if ops != [] { NeverOverfull(c, secret, GroupNext(c, secret, g, ops[0]), ops[1..]); }
  }

  /** Under different keys a sealed text does not open. */
  ghost predicate Apart(c: Crypto, k: Bytes, k': Bytes) {
    k != k' ==> forall n, p :: c.open(k', n, c.seal(k, n, p)) == None
  }

  // ----- The object

  class MlsGroupSession {
    const crypto: Crypto
    const initSecret: Bytes
    var members: Members
    var epoch: nat
    var epochKey: Bytes
    var sendSeq: nat

    ghost predicate Valid()
      reads this
    {
      Ideal(crypto) && GroupReady(crypto, initSecret, State())
    }

    ghost function State(): Group
      reads this
    {
      Group(members, epoch, epochKey, sendSeq)
    }

    constructor (c: Crypto, secret: Bytes)
      requires Ideal(c)
      ensures Valid() && crypto == c && initSecret == secret
      ensures State() == Group([], 0, EpochKey(c, secret, []), 0)
    {
      crypto := c;
      initSecret := secret;
      members := [];
      epoch := 0;
      epochKey := EpochKey(c, secret, []);
      sendSeq := 0;
      new;
      assert Encoded(c, members) == [];
    }

    method RotateEpoch()
      requires Ideal(crypto) && Distinct(members)
      modifies this
      ensures Valid() && State() == Rotated(crypto, initSecret, old(State()), old(members))
      ensures members == old(members) && epoch == old(epoch) + 1 && sendSeq == 0
    {
      epochKey := EpochKey(crypto, initSecret, Encoded(crypto, members));
      epoch := epoch + 1;
      sendSeq := 0;
    }

    method AddMember(id: string, pk: Bytes) returns (r: Result<()>)
      requires Valid()
      modifies this
      ensures Valid() && State() == GroupNext(crypto, initSecret, old(State()), Add(id, pk))
      ensures r == if |old(members)| >= MAX_MEMBERS then Err(GroupFull) else Ok(())
      ensures r.Ok? ==> Names(members) == old(Names(members)) + {id} && epoch == old(epoch) + 1 && sendSeq == 0
    {
      hide EpochKey, Encoded;
      if |members| >= MAX_MEMBERS {
        return Err(GroupFull);
      }
      members := Put(members, id, pk);
      RotateEpoch();
      r := Ok(());
    }

    method RemoveMember(id: string)
      requires Valid()
      modifies this
      ensures Valid() && State() == GroupNext(crypto, initSecret, old(State()), Remove(id))
      ensures Names(members) == old(Names(members)) - {id} && epoch == old(epoch) + 1 && sendSeq == 0
    {
      hide EpochKey, Encoded;
      members := Pop(members, id);
      RotateEpoch();
    }

    /** A 256-byte frame under the epoch key and the next counted nonce. */
    method Encrypt(plaintext: Bytes) returns (wire: Result<Bytes>)
      requires Valid()
      modifies this
      ensures Valid() && State() == GroupNext(crypto, initSecret, old(State()), Send(plaintext))
      ensures wire.Ok? <==> SeqNonce(old(epoch), old(sendSeq)).Ok?
      ensures wire.Ok? ==> |wire.value| == FRAME_WIRE_SIZE
      ensures wire.Ok? ==> wire.value[..NONCE_SIZE] == SeqNonce(old(epoch), old(sendSeq)).value
      ensures wire.Ok? ==> wire.value[NONCE_SIZE..] == crypto.seal(epochKey, SeqNonce(old(epoch), old(sendSeq)).value, PadZeros(plaintext))
    {
      hide EpochKey, Encoded, Decode;
      var padded := PadZeros(plaintext);
      var nonce := SeqNonce(epoch, sendSeq);
      if nonce.Err? {
        return Err(FieldOverflow);
      }
      NonceDecodes(epoch, sendSeq);
      sendSeq := sendSeq + 1;
      var ct := crypto.seal(epochKey, nonce.value, padded);
      wire := Ok(nonce.value + ct);
    }

    /** The nonce is rebuilt from the claimed epoch and number, not read from the frame. */
    method Decrypt(wire: Bytes, senderEpoch: nat, senderSeq: nat) returns (r: Result<Bytes>)
      requires Valid()
      ensures r == Err(BadFrameSize) <==> |wire| != FRAME_WIRE_SIZE
      ensures r == Err(FieldOverflow) <==> |wire| == FRAME_WIRE_SIZE && SeqNonce(senderEpoch, senderSeq).Err?
      ensures |wire| == FRAME_WIRE_SIZE && SeqNonce(senderEpoch, senderSeq).Ok? ==>
        Stripped(r, crypto.open(epochKey, SeqNonce(senderEpoch, senderSeq).value, wire[NONCE_SIZE..]))
      ensures r.Ok? && r.value != [] ==> r.value[|r.value| - 1] != 0
    {
      if |wire| != FRAME_WIRE_SIZE {
        return Err(BadFrameSize);
      }
      var nonce := SeqNonce(senderEpoch, senderSeq);
      if nonce.Err? {
        return Err(FieldOverflow);
      }
      match crypto.open(epochKey, nonce.value, wire[NONCE_SIZE..])
      case None => r := Err(BadTag);
      case Some(padded) =>
        StripIsPrefix(padded);
        r := Ok(StripZeros(padded));
    }
  }

  /** One frame between two sessions with one secret and one member set, however each
      got there: the receiver gets the text cut to 228 bytes without trailing zeros. */
  method Transmit(a: MlsGroupSession, b: MlsGroupSession, p: Bytes) returns (r: Result<Bytes>)
    requires a.Valid() && b.Valid() && a != b && a.crypto == b.crypto
    requires a.initSecret == b.initSecret && Names(a.members) == Names(b.members)
    requires SeqNonce(a.epoch, a.sendSeq).Ok?
    modifies a
    ensures r == Ok(StripZeros(Cut(p, MAX_PLAINTEXT)))
  {
    hide EpochKey, Encoded, SeqNonce;
    KeyOfSet(a.crypto, a.initSecret, a.members, b.members);
    var e, s := a.epoch, a.sendSeq;
    var wire := a.Encrypt(p);
    StripPad(p);
    r := b.Decrypt(wire.value, e, s);
    StripIsPrefix(PadZeros(p));
    StrippedUnique(PadZeros(p), r.value, StripZeros(PadZeros(p)));
  }

  /** A frame to a session with the same secret but another member set, one a member was
      removed from or joined since: a bad tag. */
  method TransmitOutside(a: MlsGroupSession, b: MlsGroupSession, p: Bytes, ghost len: nat) returns (r: Result<Bytes>)
    requires a.Valid() && b.Valid() && a != b && a.crypto == b.crypto
    requires a.initSecret == b.initSecret && Names(a.members) != Names(b.members)
    requires Encodes(a.crypto, Names(a.members) + Names(b.members), len)
    requires Tells(a.crypto, a.initSecret, Join(Sort(Encoded(a.crypto, a.members))), Join(Sort(Encoded(a.crypto, b.members))))
    requires Apart(a.crypto, a.epochKey, b.epochKey) && SeqNonce(a.epoch, a.sendSeq).Ok?
    modifies a
    ensures r == Err(BadTag)
  {
    hide EpochKey, Encoded, SeqNonce, Encodes, Tells, Sort, Join;
    KeyIffSameMembers(a.crypto, a.initSecret, a.members, b.members, len);
    var e, s := a.epoch, a.sendSeq;
    var wire := a.Encrypt(p);
    r := b.Decrypt(wire.value, e, s);
  }
}
