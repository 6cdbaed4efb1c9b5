/**
  The UDP packets of the mesh bus, written into and read from byte buffers at hand-computed offsets.
  Lengths are 16-bit fields, so a length that does not fit is silently reduced modulo 2^16.
*/
module MeshPackets {
  import opened Frames

  const MAGIC: Byte := 0x57
  const TYPE_INVALIDATE: Byte := 0x01
  const TYPE_HEARTBEAT: Byte := 0x02
  const TYPE_BATCH: Byte := 0x03

  const SEND_BUFFER: nat := 2048
  const RECEIVE_BUFFER: nat := 1500

  type Uint16 = n: int | 0 <= n < 0x1_0000

  type NodeId = s: seq<Byte> | |s| == 16 witness [0, 0, 0, 0, 0, 0, 0, 0, 0, 0, 0, 0, 0, 0, 0, 0]

  datatype Packet = Packet(
    magic: Byte,
    kind: Byte,
    nodeId: NodeId,
    keyHash: Uint64,
    keyLen: Uint16,
    key: seq<Byte>,
    keys: seq<seq<Byte>>)

  datatype Outcome = Ok(packet: Packet) | ErrInvalidMagic | ErrShortBuffer

  // ----- Fixed-width big-endian integers -----

  /** `PutUint16` of a length converted to `uint16`. */
  function Put16(n: nat): (s: seq<Byte>)
    ensures |s| == 2
  {
    [n / 0x100 % 0x100, n % 0x100]
  }

  function Get16(s: seq<Byte>): Uint16
    requires |s| >= 2
  {
    var high: int := s[0];
    high * 0x100 + s[1]
  }

  lemma Get16Put16(n: nat, tail: seq<Byte>)
    ensures Get16(Put16(n)) == Get16(Put16(n) + tail) == n % 0x1_0000
    ensures n < 0x1_0000 ==> Get16(Put16(n)) == n
  {
    assert n / 0x100 / 0x100 == n / 0x1_0000;
  }

  function Put64(n: Uint64): (s: seq<Byte>)
    ensures |s| == 8
  {
    Put16(n / 0x1_0000_0000_0000) + (Put16(n / 0x1_0000_0000) + (Put16(n / 0x1_0000) + Put16(n)))
  }

  function Get64(s: seq<Byte>): int
    requires |s| == 8
  {
    Join(Get16(s), Get16(s[2..]), Get16(s[4..]), Get16(s[6..]))
  }

  function Join(a: int, b: int, c: int, d: int): int {
    a * 0x1_0000_0000_0000 + b * 0x1_0000_0000 + c * 0x1_0000 + d
  }

  lemma JoinParts(n: Uint64)
    ensures Join(n / 0x1_0000_0000_0000 % 0x1_0000, n / 0x1_0000_0000 % 0x1_0000, n / 0x1_0000 % 0x1_0000,
                 n % 0x1_0000) == n
  {
    var c := n / 0x1_0000;
    var b := n / 0x1_0000_0000;
    assert b == c / 0x1_0000;
    assert n / 0x1_0000_0000_0000 == b / 0x1_0000;
  }

  lemma Get64Put64(n: Uint64)
    ensures Get64(Put64(n)) == n
  {
    var a, b, c, d := n / 0x1_0000_0000_0000, n / 0x1_0000_0000, n / 0x1_0000, n;
    var s := Put64(n);
    assert s[2..] == Put16(b) + (Put16(c) + Put16(d));
    assert s[4..] == Put16(c) + Put16(d);
    assert s[6..] == Put16(d) + [];
    Get16Put16(a, Put16(b) + (Put16(c) + Put16(d)));
    Get16Put16(b, Put16(c) + Put16(d));
    Get16Put16(c, Put16(d));
    Get16Put16(d, []);
    JoinParts(n);
  }

  // ----- The layout -----

  function Header(p: Packet): (s: seq<Byte>)
    ensures |s| == 18
  {
    [p.magic, p.kind] + p.nodeId
  }

  function KeyBytes(k: seq<Byte>): seq<Byte> {
    Put16(|k|) + k
  }

  function KeysBytes(keys: seq<seq<Byte>>): seq<Byte> {
    if keys == [] then [] else KeyBytes(keys[0]) + KeysBytes(keys[1..])
  }

  predicate IsSingle(kind: Byte) {
    kind == TYPE_INVALIDATE || kind == TYPE_HEARTBEAT
  }

  function BodyBytes(p: Packet): seq<Byte> {
    if IsSingle(p.kind) then Put64(p.keyHash) + (Put16(p.keyLen) + p.key)
    else if p.kind == TYPE_BATCH then Put16(|p.keys|) + KeysBytes(p.keys)
    else []
  }

  /** Everything `marshal` writes. */
  function Bytes(p: Packet): seq<Byte> {
    Header(p) + BodyBytes(p)
  }

  /** A packet on the wire about one key: big-endian numbers, the key behind its length field. */
  lemma Layout(id: NodeId, kind: Byte)
    ensures kind == 1 || kind == 2 ==>
              Bytes(Packet(0x57, kind, id, 0x0102_0304_0506_0708, 0x102, [0xA], [])) ==
                [0x57, kind] + id + ([1, 2, 3, 4, 5, 6, 7, 8] + ([1, 2] + [0xA]))
    ensures kind != 1 && kind != 2 && kind != 3 ==> Bytes(Packet(0x57, kind, id, 0, 0, [], [])) == [0x57, kind] + id
  {
  }

  /** A batch on the wire: the number of keys, and every key behind its length. */
  lemma BatchLayout(id: NodeId)
    ensures Bytes(Packet(0x57, 3, id, 0, 0, [], [[0xA], [0xB, 0xC]])) ==
              [0x57, 3] + id + ([0, 2] + ([0, 1, 0xA] + [0, 2, 0xB, 0xC]))
  {
    var keys: seq<seq<Byte>> := [[0xA], [0xB, 0xC]];
    KeysBytesAppend([], [0xA]);
    KeysBytesAppend([[0xA]], [0xB, 0xC]);
    assert [] + [keys[0]] == [[0xA]] && [[0xA]] + [keys[1]] == keys;
    assert KeyBytes([0xA]) == [0, 1, 0xA] && KeyBytes([0xB, 0xC]) == [0, 2, 0xB, 0xC];
    assert KeysBytes([[0xA]]) == [] + [0, 1, 0xA] == [0, 1, 0xA];
    assert Put16(|keys|) == [0, 2];
  }

  lemma NoPacket(b: seq<Byte>)
    ensures |b| < 18 ==> Unmarshal(b) == ErrShortBuffer
    ensures Unmarshal(b) == ErrInvalidMagic <==> |b| >= 18 && b[0] != 0x57
  {
  }

  lemma {:induction false} KeysBytesAppend(keys: seq<seq<Byte>>, k: seq<Byte>)
    ensures KeysBytes(keys + [k]) == KeysBytes(keys) + KeyBytes(k)
  {
    if keys == [] {
      assert keys + [k] == [k];
      assert KeysBytes([k]) == KeyBytes(k) + [];
    } else {
      assert (keys + [k])[1..] == keys[1..] + [k];
      KeysBytesAppend(keys[1..], k);
    }
  }

  datatype Split = Split(key: seq<Byte>, rest: seq<Byte>) | Short

  /** One turn of the loop of `unmarshal` over a batch. */
  function SplitKey(s: seq<Byte>): (r: Split)
    ensures r.Split? ==> |r.key| < 0x1_0000
  {
    if |s| < 2 then Short
    else
      var n := Get16(s);
      if |s| < 2 + n then Short else Split(s[2..2 + n], s[2 + n..])
  }

  datatype Keys = Keys(keys: seq<seq<Byte>>) | Missing

  function ReadKeys(s: seq<Byte>, count: nat): (r: Keys)
    ensures r.Keys? ==> |r.keys| == count && forall k :: k in r.keys ==> |k| < 0x1_0000
    decreases count
  {
    if count == 0 then Keys([])
    else
      match SplitKey(s)
      case Short => Missing
      case Split(k, rest) =>
        match ReadKeys(rest, count - 1)
        case Missing => Missing
        case Keys(keys) => Keys([k] + keys)
  }

  function ReadSingle(p: Packet, body: seq<Byte>): Outcome {
    if |body| < 10 then ErrShortBuffer
    else
      var n := Get16(body[8..]);
      if |body| < 10 + n then ErrShortBuffer
      else
        Get64IsUint64(body[..8]);
        Ok(p.(keyHash := Get64(body[..8]), keyLen := n, key := body[10..10 + n]))
  }

  lemma Get64IsUint64(s: seq<Byte>)
    requires |s| == 8
    ensures 0 <= Get64(s) < 0x1_0000_0000_0000_0000
  {
  }

  function ReadBatch(p: Packet, body: seq<Byte>): Outcome {
    if |body| < 2 then ErrShortBuffer
    else
      match ReadKeys(body[2..], Get16(body))
      case Missing => ErrShortBuffer
      case Keys(keys) => Ok(p.(keys := keys))
  }

  function ReadBody(p: Packet, body: seq<Byte>): Outcome {
    if IsSingle(p.kind) then ReadSingle(p, body)
    else if p.kind == TYPE_BATCH then ReadBatch(p, body)
    else Ok(p)
  }

  /** `unmarshal` of a buffer into a zero packet. */
  function Unmarshal(b: seq<Byte>): Outcome {
    if |b| < 18 then ErrShortBuffer
    else if b[0] != MAGIC then ErrInvalidMagic
    else ReadBody(Packet(b[0], b[1], b[2..18], 0, 0, [], []), b[18..])
  }

  // ----- Batches -----

  /** Nothing in the batch exceeds its 16-bit field. */
  predicate Fits(keys: seq<seq<Byte>>) {
    |keys| < 0x1_0000 && forall k :: k in keys ==> |k| < 0x1_0000
  }

  lemma SplitKeyBytes(k: seq<Byte>, rest: seq<Byte>)
    requires |k| < 0x1_0000
    ensures SplitKey(KeyBytes(k) + rest) == Split(k, rest)
  {
    var s := KeyBytes(k) + rest;
    assert s == Put16(|k|) + (k + rest);
    Get16Put16(|k|, k + rest);
    assert s[2..2 + |k|] == k;
    assert s[2 + |k|..] == rest;
  }

  lemma SplitKeyPrefix(k: seq<Byte>, rest: seq<Byte>, n: nat)
    requires |k| < 0x1_0000 && n < |KeyBytes(k)|
    ensures SplitKey((KeyBytes(k) + rest)[..n]) == Short
  {
    var s := (KeyBytes(k) + rest)[..n];
    if n >= 2 {
      assert s == Put16(|k|) + k[..n - 2];
      Get16Put16(|k|, k[..n - 2]);
    }
  }

  lemma {:induction false} ReadKeysRoundTrip(keys: seq<seq<Byte>>, tail: seq<Byte>)
    requires forall k :: k in keys ==> |k| < 0x1_0000
    ensures ReadKeys(KeysBytes(keys) + tail, |keys|) == Keys(keys)
  {
    if keys != [] {
      var k, rest := keys[0], KeysBytes(keys[1..]) + tail;
      assert KeysBytes(keys) + tail == KeyBytes(k) + rest;
      SplitKeyBytes(k, rest);
      ReadKeysRoundTrip(keys[1..], tail);
      assert keys == [k] + keys[1..];
    }
  }

  /** Cutting a batch of keys anywhere leaves too little to read them all. */
  lemma {:induction false} ReadKeysPrefix(keys: seq<seq<Byte>>, n: nat)
    requires forall k :: k in keys ==> |k| < 0x1_0000
    requires n < |KeysBytes(keys)|
    ensures ReadKeys(KeysBytes(keys)[..n], |keys|) == Missing
  {
    var k, rest := keys[0], KeysBytes(keys[1..]);
    var m := n - |KeyBytes(k)|;
    if m < 0 {
      SplitKeyPrefix(k, rest, n);
    } else {
      assert KeysBytes(keys)[..n] == KeyBytes(k) + rest[..m];
      SplitKeyBytes(k, rest[..m]);
      ReadKeysPrefix(keys[1..], m);
    }
  }

  lemma ReadHeader(p: Packet, body: seq<Byte>)
    requires p.magic == MAGIC
    ensures Unmarshal(Header(p) + body) == ReadBody(p.(keyHash := 0, keyLen := 0, key := [], keys := []), body)
  {
    var b := Header(p) + body;
    assert b[2..18] == p.nodeId;
    assert b[18..] == body;
  }

  lemma ReadBatchBytes(p: Packet, count: seq<Byte>, keys: seq<seq<Byte>>, tail: seq<Byte>)
    requires |count| == 2 && Get16(count) == |keys| && Fits(keys)
    ensures ReadBatch(p, count + (KeysBytes(keys) + tail)) == Ok(p.(keys := keys))
  {
    var rest := KeysBytes(keys) + tail;
    assert (count + rest)[2..] == rest;
    ReadKeysRoundTrip(keys, tail);
  }

  lemma ReadBatchPrefix(p: Packet, count: seq<Byte>, keys: seq<seq<Byte>>, n: nat)
    requires |count| == 2 && Get16(count) == |keys| && Fits(keys) && n < |KeysBytes(keys)|
    ensures ReadBatch(p, count + KeysBytes(keys)[..n]) == ErrShortBuffer
  {
    var rest := KeysBytes(keys)[..n];
    assert (count + rest)[2..] == rest;
    ReadKeysPrefix(keys, n);
  }

  lemma ReadBatchFits(p: Packet, body: seq<Byte>)
    requires ReadBatch(p, body).Ok?
    ensures Fits(ReadBatch(p, body).packet.keys)
  {
  }

  /** Bytes after a batch are ignored, and the batch is read back exactly when nothing was truncated. */
  lemma BatchRoundTrip(p: Packet, tail: seq<Byte>)
    requires p.kind == TYPE_BATCH && p.magic == MAGIC
    ensures Unmarshal(Bytes(p) + tail) == Ok(p.(keyHash := 0, keyLen := 0, key := [])) <==> Fits(p.keys)
  {
    var body := Put16(|p.keys|) + (KeysBytes(p.keys) + tail);
    var q := p.(keyHash := 0, keyLen := 0, key := [], keys := []);
    assert Bytes(p) + tail == Header(p) + body;
    ReadHeader(p, body);
    if Fits(p.keys) {
      Get16Put16(|p.keys|, []);
      ReadBatchBytes(q, Put16(|p.keys|), p.keys, tail);
    } else if ReadBatch(q, body).Ok? {
      ReadBatchFits(q, body);
    }
  }

  /** Every strict prefix of a marshalled batch is rejected as too short, never read as a smaller batch. */
  lemma TruncatedBatchIsRejected(p: Packet, n: nat)
    requires p.kind == TYPE_BATCH && p.magic == MAGIC && Fits(p.keys) && n < |Bytes(p)|
    ensures Unmarshal(Bytes(p)[..n]) == ErrShortBuffer
  {
    if n >= 18 {
      var count, body := Put16(|p.keys|), BodyBytes(p)[..n - 18];
      assert Bytes(p)[..n] == Header(p) + body;
      ReadHeader(p, body);
      if n >= 20 {
        assert body == count + KeysBytes(p.keys)[..n - 20];
        Get16Put16(|p.keys|, []);
        ReadBatchPrefix(p.(keyHash := 0, keyLen := 0, key := [], keys := []), count, p.keys, n - 20);
      }
    }
  }

  // ----- The bound on the buffer -----

  const LARGEST_SAFE_BUFFER: nat := 65557

  lemma {:induction false} KeysBytesLength(keys: seq<seq<Byte>>)
    ensures 2 * |keys| <= |KeysBytes(keys)|
    ensures forall k :: k in keys ==> 2 + |k| <= |KeysBytes(keys)|
  {
    if keys != [] {
      KeysBytesLength(keys[1..]);
    }
  }

  /** In a buffer of at most 65557 bytes whatever fits is not truncated. */
  lemma SmallBufferMeansNoTruncation(p: Packet)
    requires p.kind == TYPE_BATCH && |Bytes(p)| <= LARGEST_SAFE_BUFFER
    ensures Fits(p.keys)
  {
    KeysBytesLength(p.keys);
  }

  function Zeros(n: nat): seq<Byte> {
    seq(n, _ => 0)
  }

  /** One byte more, and a key of 65536 bytes fits the buffer but is read back as an empty key. */
  lemma LargerBufferTruncates(nodeId: NodeId)
    ensures var p := Packet(MAGIC, TYPE_BATCH, nodeId, 0, 0, [], [Zeros(0x1_0000)]);
            && |Bytes(p)| == LARGEST_SAFE_BUFFER + 1
            && Unmarshal(Bytes(p)) == Ok(p.(keys := [[]]))
  {
    var key := Zeros(0x1_0000);
    var p := Packet(MAGIC, TYPE_BATCH, nodeId, 0, 0, [], [key]);
    assert KeysBytes([key]) == KeyBytes(key) + [];
    var body := Put16(1) + KeysBytes([key]);
    ReadHeader(p, body);
    Get16Put16(1, KeysBytes([key]));
    assert body[2..] == Put16(0x1_0000) + key;
    Get16Put16(0x1_0000, key);
    assert SplitKey(body[2..]).key == [];
    assert ReadKeys(body[2..], 1) == Keys([[]]);
  }

  // ----- What a flush delivers -----

  /** The keys a peer reads from the datagram of one flushed batch, if any was sent. */
  function Delivered(nodeId: NodeId, batch: seq<seq<Byte>>): seq<seq<Byte>> {
    var sent := Bytes(Packet(MAGIC, TYPE_BATCH, nodeId, 0, 0, [], batch));
    if |sent| > SEND_BUFFER then []
    else
      match Unmarshal(if |sent| > RECEIVE_BUFFER then sent[..RECEIVE_BUFFER] else sent)
      case Ok(p) => p.keys
      case _ => []
  }

  /** A flushed batch reaches a peer whole or not at all: whole exactly when it fits the receive buffer. */
  lemma FlushIsAllOrNothing(nodeId: NodeId, batch: seq<seq<Byte>>)
    ensures Delivered(nodeId, batch) == if 20 + |KeysBytes(batch)| <= 1500 then batch else []
  {
    var p := Packet(MAGIC, TYPE_BATCH, nodeId, 0, 0, [], batch);
    var sent := Bytes(p);
    if |sent| <= SEND_BUFFER {
      SmallBufferMeansNoTruncation(p);
      if |sent| > RECEIVE_BUFFER {
        TruncatedBatchIsRejected(p, RECEIVE_BUFFER);
      } else {
        BatchRoundTrip(p, []);
        assert sent + [] == sent;
      }
    }
  }

  // ----- Single-key packets -----

  lemma ReadSingleBytes(p: Packet, hash: seq<Byte>, len: seq<Byte>, key: seq<Byte>)
    requires |hash| == 8 && |len| == 2
    ensures var n := Get16(len);
            var r := ReadSingle(p, hash + (len + key));
            if |key| < n then r == ErrShortBuffer
            else && 0 <= Get64(hash) < 0x1_0000_0000_0000_0000
                 && r == Ok(p.(keyHash := Get64(hash), keyLen := n, key := key[..n]))
  {
    var body := hash + (len + key);
    var n := Get16(len);
    Get64IsUint64(hash);
    assert body[..8] == hash;
    assert body[8..] == len + key;
    if n <= |key| {
      assert body[10..10 + n] == key[..n];
    }
  }

  /** An invalidation or heartbeat is read back in full exactly when its length field is the key's length. */
  lemma SingleRoundTrip(p: Packet)
    requires IsSingle(p.kind) && p.magic == MAGIC
    ensures Unmarshal(Bytes(p)) == Ok(p.(keys := [])) <==> p.keyLen == |p.key|
  {
    ReadHeader(p, BodyBytes(p));
    Get64Put64(p.keyHash);
    Get16Put16(p.keyLen, []);
    ReadSingleBytes(p.(keyHash := 0, keyLen := 0, key := [], keys := []), Put64(p.keyHash), Put16(p.keyLen), p.key);
    if p.keyLen == |p.key| {
      assert p.key[..p.keyLen] == p.key;
    }
  }

  // ----- Marshalling in place -----

  /** The buffer holds `done` followed by what it held at the start. */
  ghost predicate Holds(b: array<Byte>, done: seq<Byte>, start: seq<Byte>)
    reads b
  {
    |done| <= |start| && b[..] == done + start[|done|..]
  }

  /** Copying behind a finished prefix extends it. */
  method Extend(b: array<Byte>, ghost done: seq<Byte>, ghost start: seq<Byte>, at: nat, data: seq<Byte>)
    returns (next: nat)
    requires Holds(b, done, start) && at == |done| && at + |data| <= b.Length
    modifies b
    ensures next == at + |data| && Holds(b, done + data, start)
  {
    forall i | 0 <= i < |data| {
      b[at + i] := data[i];
    }
    next := at + |data|;
  }

  lemma {:induction false} KeysBytesPrefix(keys: seq<seq<Byte>>, i: nat)
    requires i <= |keys|
    ensures |KeysBytes(keys[..i])| <= |KeysBytes(keys)|
    decreases |keys| - i
  {
    if i == |keys| {
      assert keys[..i] == keys;
    } else {
      assert keys[..i + 1] == keys[..i] + [keys[i]];
      KeysBytesAppend(keys[..i], keys[i]);
      KeysBytesPrefix(keys, i + 1);
    }
  }

  method MarshalKeys(keys: seq<seq<Byte>>, b: array<Byte>, ghost head: seq<Byte>, ghost start: seq<Byte>)
    returns (curr: nat, ok: bool)
    requires |head| == 20 && Holds(b, head, start)
    modifies b
    ensures ok == (20 + |KeysBytes(keys)| <= b.Length)
    ensures ok ==> curr == 20 + |KeysBytes(keys)| && Holds(b, head + KeysBytes(keys), start)
  {
    curr := 20;
    var i := 0;
    ghost var written: seq<Byte> := [];
    assert head + [] == head;
    while i < |keys|
      invariant 0 <= i <= |keys|
      invariant written == KeysBytes(keys[..i]) && curr == 20 + |written|
      invariant Holds(b, head + written, start)
    {
      var k := keys[i];
      assert keys[..i + 1] == keys[..i] + [k];
      KeysBytesAppend(keys[..i], k);
      if b.Length < curr + 2 + |k| {
        KeysBytesPrefix(keys, i + 1);
        return curr, false;
      }
      curr := Extend(b, head + written, start, curr, KeyBytes(k));
      assert head + written + KeyBytes(k) == head + (written + KeyBytes(k));
      written := written + KeyBytes(k);
      i := i + 1;
    }
    assert keys[..i] == keys;
    return curr, true;
  }

  /** `marshal`: success writes exactly the packet's bytes and touches nothing behind them. */
  method Marshal(p: Packet, b: array<Byte>) returns (n: nat, ok: bool)
    modifies b
    ensures ok == (|Bytes(p)| <= b.Length)
    ensures ok ==> Holds(b, Bytes(p), old(b[..]))
    ensures ok ==> n == if IsSingle(p.kind) then 28 + p.keyLen else |Bytes(p)|
  {
    if b.Length < 18 {
      return 0, false;
    }
    ghost var start := b[..];
    var at := Extend(b, [], start, 0, Header(p));
    assert [] + Header(p) == Header(p);
    if IsSingle(p.kind) {
      if b.Length < 28 + |p.key| {
        return 0, false;
      }
      at := Extend(b, Header(p), start, at, BodyBytes(p));
      return 28 + p.keyLen, true;
    } else if p.kind == TYPE_BATCH {
      if b.Length < 20 {
        return 0, false;
      }
      ghost var head := Header(p) + Put16(|p.keys|);
      at := Extend(b, Header(p), start, at, Put16(|p.keys|));
      n, ok := MarshalKeys(p.keys, b, head, start);
      assert head + KeysBytes(p.keys) == Bytes(p);
    } else {
      assert Bytes(p) == Header(p);
      return 18, true;
    }
  }

  /** One turn of the loop of `unmarshal`, at offset `curr`. */
  method ScanKey(b: seq<Byte>, curr: nat) returns (k: seq<Byte>, next: nat, ok: bool)
    requires curr <= |b|
    ensures next <= |b|
    ensures SplitKey(b[curr..]) == if ok then Split(k, b[next..]) else Short
  {
    if |b| < curr + 2 {
      return [], curr, false;
    }
    ghost var s := b[curr..];
    var kLen := Get16(b[curr..curr + 2]);
    assert kLen == Get16(s);
    if |b| < curr + 2 + kLen {
      return [], curr, false;
    }
    k, next, ok := b[curr + 2..curr + 2 + kLen], curr + 2 + kLen, true;
    assert s[2..2 + kLen] == k && s[2 + kLen..] == b[next..];
  }

  /** The loop of `unmarshal` over the keys of a batch. */
  method ScanKeys(b: seq<Byte>, count: nat) returns (r: Keys)
    requires |b| >= 20
    ensures r == ReadKeys(b[20..], count)
  {
    var keys: seq<seq<Byte>>, curr, i := [], 20, 0;
    while i < count
      invariant 0 <= i <= count && 0 <= curr <= |b|
      invariant Scanned(b, count, keys, curr, count - i)
    {
      var k, next, ok := ScanKey(b, curr);
      ScannedNext(b, count, keys, curr, count - i, k, next, ok);
      if !ok {
        return Missing;
      }
      keys := keys + [k];
      curr, i := next, i + 1;
    }
    assert keys + [] == keys;
    return Keys(keys);
  }

  ghost function After(keys: seq<seq<Byte>>, rest: Keys): Keys {
    if rest.Missing? then Missing else Keys(keys + rest.keys)
  }

  /** The first keys have been read, and `left` more are to be read from `curr` on. */
  ghost predicate Scanned(b: seq<Byte>, count: nat, keys: seq<seq<Byte>>, curr: nat, left: nat)
    requires 20 <= |b| && curr <= |b|
  {
    ReadKeys(b[20..], count) == After(keys, ReadKeys(b[curr..], left))
  }

  lemma ScannedNext(
    b: seq<Byte>, count: nat, keys: seq<seq<Byte>>, curr: nat, left: nat, k: seq<Byte>, next: nat, ok: bool)
    requires 20 <= |b| && curr <= |b| && next <= |b| && left > 0 && Scanned(b, count, keys, curr, left)
    requires SplitKey(b[curr..]) == if ok then Split(k, b[next..]) else Short
    ensures ok ==> Scanned(b, count, keys + [k], next, left - 1)
    ensures !ok ==> ReadKeys(b[20..], count) == Missing
  {
    if ok {
      NextKey(keys, b[curr..], left, k, b[next..]);
    }
  }

  /** One key more has been read. */
  lemma NextKey(keys: seq<seq<Byte>>, s: seq<Byte>, n: nat, k: seq<Byte>, rest: seq<Byte>)
    requires n > 0 && SplitKey(s) == Split(k, rest)
    ensures After(keys, ReadKeys(s, n)) == After(keys + [k], ReadKeys(rest, n - 1))
  {
    AfterOne(keys, k, ReadKeys(rest, n - 1));
  }

  lemma AfterOne(keys: seq<seq<Byte>>, k: seq<Byte>, rest: Keys)
    ensures After(keys, After([k], rest)) == After(keys + [k], rest)
  {
    if rest.Keys? {
      assert keys + ([k] + rest.keys) == keys + [k] + rest.keys;
    }
  }

  /** `unmarshal` into a zero packet, reading the buffer at its fixed offsets. */
  method UnmarshalPacket(b: seq<Byte>) returns (r: Outcome)
    ensures r == Unmarshal(b)
  {
    if |b| < 18 {
      return ErrShortBuffer;
    }
    if b[0] != MAGIC {
      return ErrInvalidMagic;
    }
    var p := Packet(b[0], b[1], b[2..18], 0, 0, [], []);
    ghost var body := b[18..];
    if IsSingle(b[1]) {
      if |b| < 28 {
        return ErrShortBuffer;
      }
      assert b[18..26] == body[..8] && Get16(b[26..28]) == Get16(body[8..]);
      Get64IsUint64(b[18..26]);
      p := p.(keyHash := Get64(b[18..26]), keyLen := Get16(b[26..28]));
      if |b| < 28 + p.keyLen {
        return ErrShortBuffer;
      }
      if p.keyLen > 0 {
        p := p.(key := b[28..28 + p.keyLen]);
      }
      assert body[10..10 + p.keyLen] == p.key;
    } else if b[1] == TYPE_BATCH {
      if |b| < 20 {
        return ErrShortBuffer;
      }
      var keys := ScanKeys(b, Get16(b[18..20]));
      assert body[2..] == b[20..] && Get16(b[18..20]) == Get16(body);
      if keys.Missing? {
        return ErrShortBuffer;
      }
      p := p.(keys := keys.keys);
    }
    return Ok(p);
  }
}
