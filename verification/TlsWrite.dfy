/** The non-blocking TLS write path: application data is cut into records, each sealed once; the
    sealed bytes wait in a buffer until the transport has taken them, over any number of calls. */
module TlsWrite {
  import opened Wrappers
  import opened Wire
  import opened NetworkOrder
  import opened WriteBuffer

  const APPLICATION_DATA: byte := 23
  const HEADER: nat := 5
  const MAX_PLAIN_LENGTH: nat := 16384
  const NUMBER_LIMIT: nat := 0x1_0000_0000_0000_0000

  // ----- the transport

  /** A byte stream that takes as much of what it is offered as it likes; an answer of 0 or less
      means that it would block or has failed. */
  class Transport {
    var answers: seq<int>
    var taken: seq<byte>
    var last: int

    constructor (answers: seq<int>)
      ensures this.answers == answers && taken == [] && last == 1
    {
      this.answers, taken, last := answers, [], 1;
    }

    method Answer(most: nat) returns (n: int)
      modifies this
      ensures n <= most && last == n && taken == old(taken)
    {
      n := -1;
      if answers != [] {
        n, answers := answers[0], answers[1..];
      }
      if n > most {
        n := most;
      }
      last := n;
    }

    /** BIO_write. */
    method Write(data: seq<byte>) returns (n: int)
      modifies this
      ensures n <= |data| && last == n
      ensures taken == old(taken) + (if n > 0 then data[..n] else [])
    {
      n := Answer(|data|);
      if n > 0 {
        taken := taken + data[..n];
      }
    }
  }

  // ----- records

  /** The write side of a cipher: whether it splits off the first byte of application data, and
      what encryption makes of a record's type, number and plaintext, if it succeeds. */
  datatype Keys = Keys(version: nat, maxOverhead: nat, splits: bool, seal: (byte, nat, seq<byte>) -> Option<seq<byte>>)

  /** A record: its plaintext, and the bytes it became. */
  datatype Record = Record(kind: byte, content: seq<byte>, bytes: seq<byte>)

  function RecordBytes(k: Keys, kind: byte, ciphertext: seq<byte>): seq<byte> {
    [kind] + Bytes(k.version, 2) + Bytes(|ciphertext|, 2) + ciphertext
  }

  /** `r` is what `k` makes of its content under some number. */
  ghost predicate SealedBy(k: Keys, r: Record, number: nat) {
    var ct := k.seal(r.kind, number, r.content);
    ct.Some? && r.bytes == RecordBytes(k, r.kind, ct.value)
  }

  /** It is a record of `k`'s. */
  ghost predicate Made(k: Keys, r: Record) {
    exists number: nat :: SealedBy(k, r, number)
  }

  ghost predicate AllMade(k: Keys, rs: seq<Record>) {
    forall i :: 0 <= i < |rs| ==> Made(k, rs[i])
  }

  /** The header of a record: its type, the version, and the length of what follows, each in 16 bits,
      high byte first. */
  ghost predicate Framed(version: nat, r: Record) {
    && |r.bytes| >= 5 && r.bytes[0] == r.kind
    && Word16(r.bytes[1], r.bytes[2]) == version % 65536
    && Word16(r.bytes[3], r.bytes[4]) == (|r.bytes| - 5) % 65536
  }

  /** What the transport is given for a record is its header and what encryption made of it. */
  lemma RecordLayout(k: Keys, r: Record, number: nat)
    requires SealedBy(k, r, number)
    ensures Framed(k.version, r) && k.seal(r.kind, number, r.content) == Some(r.bytes[5..])
  {
    var ct := k.seal(r.kind, number, r.content).value;
    Pair(k.version);
    Pair(|ct|);
    assert r.bytes[1] == k.version / 256 % 256 && r.bytes[2] == k.version % 256;
    assert r.bytes[3] == |ct| / 256 % 256 && r.bytes[4] == |ct| % 256;
    assert r.bytes[5..] == ct;
  }

  // ----- reading a stream of records

  /** A record as its header tells it. */
  datatype Frame = Frame(kind: byte, version: nat, body: seq<byte>)

  /** What a reader makes of a stream of bytes, if it holds whole records only. */
  function ReadFrames(bs: seq<byte>): Option<seq<Frame>> {
    if bs == [] then Some([])
    else if |bs| < 5 then None
    else
      var length := Word16(bs[3], bs[4]);
      if |bs| < 5 + length then None
      else
        match ReadFrames(bs[5 + length..])
        case None => None
        case Some(frames) => Some([Frame(bs[0], Word16(bs[1], bs[2]), bs[5..5 + length])] + frames)
  }

  /** The records as such a reader should see them. */
  ghost predicate Shows(version: nat, rs: seq<Record>, frames: seq<Frame>) {
    && |frames| == |rs|
    && forall i :: 0 <= i < |rs| ==>
         |rs[i].bytes| >= 5 && frames[i] == Frame(rs[i].kind, version % 65536, rs[i].bytes[5..])
  }

  /** No record is longer than its header can tell. */
  ghost predicate AllShort(rs: seq<Record>) {
    forall i :: 0 <= i < |rs| ==> |rs[i].bytes| < 5 + 65536
  }

  lemma FirstBytes(rs: seq<Record>)
    requires rs != []
    ensures BytesOf(rs) == rs[0].bytes + BytesOf(rs[1..])
  {
    ConcatRecords([rs[0]], rs[1..]);
    BytesOfOne(rs[0]);
    assert [rs[0]] + rs[1..] == rs;
  }

  lemma ReadFirst(version: nat, r: Record, rest: seq<byte>)
    requires Framed(version, r) && |r.bytes| < 5 + 65536
    ensures ReadFrames(r.bytes + rest) ==
            match ReadFrames(rest)
            case None => None
            case Some(frames) => Some([Frame(r.kind, version % 65536, r.bytes[5..])] + frames)
  {
    var bs, n := r.bytes + rest, |r.bytes|;
    assert bs[0] == r.bytes[0] && bs[1] == r.bytes[1] && bs[2] == r.bytes[2];
    assert bs[3] == r.bytes[3] && bs[4] == r.bytes[4];
    assert bs[n..] == rest && bs[5..n] == r.bytes[5..];
  }

  /** Records one after the other are read back one by one. */
  lemma {:induction false} FramesReadBack(k: Keys, rs: seq<Record>)
    requires AllMade(k, rs) && AllShort(rs)
    ensures ReadFrames(BytesOf(rs)).Some? && Shows(k.version, rs, ReadFrames(BytesOf(rs)).value)
    decreases |rs|
  {
    hide BytesOf, SealedBy, Framed;
    if rs == [] {
      NoBytes();
    } else {
      assert Made(k, rs[0]);
      var number: nat :| SealedBy(k, rs[0], number);
      RecordLayout(k, rs[0], number);
      FramesReadBack(k, rs[1..]);
      FirstBytes(rs);
      ReadFirst(k.version, rs[0], BytesOf(rs[1..]));
      FramedLength(k.version, rs[0]);
    }
  }

  lemma NoBytes()
    ensures BytesOf([]) == []
  {
  }

  lemma FramedLength(version: nat, r: Record)
    requires Framed(version, r)
    ensures |r.bytes| >= 5
  {
  }

  function BytesOf(rs: seq<Record>): seq<byte> {
    if rs == [] then [] else BytesOf(rs[..|rs| - 1]) + rs[|rs| - 1].bytes
  }

  /** The application data in some records. */
  function AppData(rs: seq<Record>): seq<byte> {
    if rs == [] then []
    else AppData(rs[..|rs| - 1]) + if rs[|rs| - 1].kind == 23 then rs[|rs| - 1].content else []
  }

  lemma {:induction false} ConcatRecords(rs: seq<Record>, more: seq<Record>)
    ensures BytesOf(rs + more) == BytesOf(rs) + BytesOf(more)
    ensures AppData(rs + more) == AppData(rs) + AppData(more)
    decreases |more|
  {
    if more == [] {
      assert rs + more == rs;
    } else {
      var front, last := more[..|more| - 1], more[|more| - 1];
      ConcatRecords(rs, front);
      ConcatStep(rs, front, last);
      assert front + [last] == more;
    }
  }

  lemma ConcatStep(rs: seq<Record>, front: seq<Record>, last: Record)
    requires BytesOf(rs + front) == BytesOf(rs) + BytesOf(front)
    requires AppData(rs + front) == AppData(rs) + AppData(front)
    ensures BytesOf(rs + (front + [last])) == BytesOf(rs) + BytesOf(front + [last])
    ensures AppData(rs + (front + [last])) == AppData(rs) + AppData(front + [last])
  {
    hide BytesOf, AppData;
    RecordMore(rs + front, last);
    RecordMore(front, last);
    assert rs + (front + [last]) == rs + front + [last];
  }

  lemma RecordMore(rs: seq<Record>, r: Record)
    ensures BytesOf(rs + [r]) == BytesOf(rs) + r.bytes
    ensures AppData(rs + [r]) == AppData(rs) + if r.kind == APPLICATION_DATA then r.content else []
  {
    assert (rs + [r])[..|rs|] == rs;
  }

  lemma BytesOfOne(r: Record)
    ensures BytesOf([r]) == r.bytes
  {
    RecordMore([], r);
    assert [] + [r] == [r];
  }

  lemma BytesOfTwo(r: Record, q: Record)
    ensures BytesOf([r, q]) == r.bytes + q.bytes
  {
    BytesOfOne(r);
    RecordMore([r], q);
    assert [r] + [q] == [r, q];
  }

  /** The bytes taken, those waiting in the buffer, and those in the flight behind it are the
      records' bytes, one after the other. */
  ghost predicate Kept(taken: seq<byte>, waiting: seq<byte>, behind: seq<byte>, rs: seq<Record>) {
    taken + waiting + behind == BytesOf(rs)
  }

  /** Bytes that move from the buffer to the transport. */
  lemma Sent(taken: seq<byte>, waiting: seq<byte>, n: nat, behind: seq<byte>, rs: seq<Record>)
    requires n <= |waiting|
    ensures Kept(taken, waiting, behind, rs) ==> Kept(taken + waiting[..n], waiting[n..], behind, rs)
  {
    assert taken + waiting[..n] + waiting[n..] == taken + waiting;
  }

  /** Bytes that move from the flight to the buffer. */
  lemma Queued(taken: seq<byte>, waiting: seq<byte>, behind: seq<byte>, rs: seq<Record>)
    ensures Kept(taken, waiting, behind, rs) ==> Kept(taken, waiting + behind, [], rs)
  {
    assert taken + (waiting + behind) + [] == taken + waiting + behind;
  }

  /** Bytes of new records that join the flight. */
  lemma Behind(taken: seq<byte>, waiting: seq<byte>, behind: seq<byte>, rs: seq<Record>, more: seq<Record>)
    ensures Kept(taken, waiting, behind, rs) ==> Kept(taken, waiting, behind + BytesOf(more), rs + more)
  {
    hide BytesOf, AppData;
    ConcatRecords(rs, more);
    assert taken + waiting + (behind + BytesOf(more)) == taken + waiting + behind + BytesOf(more);
  }

  /** Bytes that move from the flight to the transport past an empty buffer. */
  lemma Direct(taken: seq<byte>, waiting: seq<byte>, behind: seq<byte>, n: nat, rs: seq<Record>)
    requires n <= |behind| && waiting == []
    ensures Kept(taken, waiting, behind, rs) ==> Kept(taken + behind[..n], waiting, behind[n..], rs)
  {
    assert taken + behind[..n] + [] + behind[n..] == taken + [] + behind;
  }

  lemma KeptNothing()
    ensures Kept([], [], [], [])
  {
  }

  lemma Finished(taken: seq<byte>, waiting: seq<byte>, rs: seq<Record>)
    ensures waiting == [] && Kept(taken, waiting, [], rs) ==> taken == BytesOf(rs)
  {
  }

  /** Bytes of new records that join the buffer when there is no flight. */
  lemma Added(taken: seq<byte>, waiting: seq<byte>, rs: seq<Record>, more: seq<Record>)
    ensures Kept(taken, waiting, [], rs) ==> Kept(taken, waiting + BytesOf(more), [], rs + more)
  {
    hide BytesOf, AppData;
    ConcatRecords(rs, more);
    assert taken + (waiting + BytesOf(more)) + [] == taken + waiting + [] + BytesOf(more);
  }

  /** The pieces a plaintext is sealed in. */
  function Pieces(k: Keys, kind: byte, content: seq<byte>): seq<seq<byte>> {
    if kind == APPLICATION_DATA && |content| > 1 && k.splits then [content[..1], content[1..]] else [content]
  }

  /** `rs` seals `content` as records of one kind, in its pieces. */
  ghost predicate Seals(k: Keys, kind: byte, content: seq<byte>, number: nat, rs: seq<Record>) {
    var pieces := Pieces(k, kind, content);
    && |rs| == |pieces|
    && forall i :: 0 <= i < |rs| ==> rs[i].kind == kind && rs[i].content == pieces[i] && SealedBy(k, rs[i], number + i)
  }

  lemma SealsMade(k: Keys, rs: seq<Record>, kind: byte, content: seq<byte>, number: nat, more: seq<Record>)
    requires AllMade(k, rs) && Seals(k, kind, content, number, more)
    ensures AllMade(k, rs + more)
  {
    hide SealedBy;
    forall i | 0 <= i < |more|
      ensures Made(k, more[i])
    {
      assert SealedBy(k, more[i], number + i);
    }
  }

  /** With a cipher that splits records, the first byte of application data goes out alone, under the
      number before that of the rest; anything else is one record. */
  lemma SplitsFirstByte(k: Keys, kind: byte, content: seq<byte>, number: nat, rs: seq<Record>)
    requires Seals(k, kind, content, number, rs)
    ensures if kind == 23 && |content| > 1 && k.splits then
              && |rs| == 2 && rs[0].content == [content[0]] && rs[1].content == content[1..]
              && |rs[0].bytes| >= 5 && k.seal(23, number, [content[0]]) == Some(rs[0].bytes[5..])
              && |rs[1].bytes| >= 5 && k.seal(23, number + 1, content[1..]) == Some(rs[1].bytes[5..])
            else
              && |rs| == 1 && rs[0].content == content
              && |rs[0].bytes| >= 5 && k.seal(kind, number, content) == Some(rs[0].bytes[5..])
  {
    hide RecordBytes;
    RecordLayout(k, rs[0], number);
    if |rs| == 2 {
      RecordLayout(k, rs[1], number + 1);
      assert content[..1] == [content[0]];
    }
  }

  /** Behind some records there are more, none of which holds more than `most` bytes. */
  ghost predicate CutTo(most: nat, was: seq<Record>, now: seq<Record>) {
    was <= now && forall i :: |was| <= i < |now| ==> |now[i].content| <= most
  }

  lemma SealsCut(k: Keys, kind: byte, content: seq<byte>, number: nat, was: seq<Record>, now: seq<Record>, most: nat)
    requires was <= now && Seals(k, kind, content, number, now[|was|..]) && |content| <= most
    ensures CutTo(most, was, now)
  {
    hide SealedBy;
    forall i | |was| <= i < |now|
      ensures |now[i].content| <= most
    {
      assert now[i] == now[|was|..][i - |was|];
    }
  }

  lemma CutNothing(most: nat, rs: seq<Record>)
    ensures CutTo(most, rs, rs)
  {
  }

  lemma CutOn(most: nat, was: seq<Record>, mid: seq<Record>, now: seq<Record>)
    requires CutTo(most, was, mid) && CutTo(most, mid, now)
    ensures CutTo(most, was, now)
  {
  }

  lemma SealsData(k: Keys, kind: byte, content: seq<byte>, number: nat, rs: seq<Record>)
    requires Seals(k, kind, content, number, rs)
    ensures AppData(rs) == if kind == APPLICATION_DATA then content else []
  {
    RecordMore([], rs[0]);
    assert [] + [rs[0]] == [rs[0]];
    if |rs| == 1 {
      assert rs == [rs[0]];
    } else {
      RecordMore([rs[0]], rs[1]);
      assert rs == [rs[0]] + [rs[1]] && content == content[..1] + content[1..];
    }
  }

  lemma Prefixes(accepted: seq<byte>, data: seq<byte>, from: nat, to: nat)
    requires from <= to <= |data|
    ensures accepted + data[..from] + data[from..to] == accepted + data[..to]
  {
  }

  /** Application data sealed from where it was left off. */
  lemma {:induction false} DataMore(k: Keys, was: seq<Record>, now: seq<Record>, number: nat,
                 accepted: seq<byte>, data: seq<byte>, from: nat, to: nat)
    requires from <= to <= |data| && was <= now
    requires Seals(k, APPLICATION_DATA, data[from..to], number, now[|was|..])
    ensures AppData(was) == accepted + data[..from] ==> AppData(now) == accepted + data[..to]
  {
    hide AppData, Seals;
    var more := now[|was|..];
    SealsData(k, APPLICATION_DATA, data[from..to], number, more);
    ConcatRecords(was, more);
    assert was + more == now;
    Prefixes(accepted, data, from, to);
  }

  /** A place in the caller's memory. */
  datatype Pointer = Pointer(object_: nat, offset: nat) {
    function Plus(n: nat): Pointer {
      Pointer(object_, offset + n)
    }
  }

  /** Encryption never fails and never adds more than it says. */
  ghost predicate Reliable(k: Keys) {
    forall kind: byte, number: nat, plain: seq<byte> ::
      var ct := k.seal(kind, number, plain); ct.Some? && |ct.value| <= |plain| + k.maxOverhead
  }

  // ----- the capacity a write asks for

  /** SSL_max_seal_overhead. */
  function SealOverhead(k: Keys): nat {
    (HEADER + k.maxOverhead) * if k.splits then 2 else 1
  }

  /** The capacity that a write of `len` bytes behind `rest` bytes asks for is granted. */
  ghost predicate Granted(k: Keys, rest: nat, len: nat) {
    rest + len + SealOverhead(k) < U16
  }

  /** It is, and new memory of that capacity ends past 2^16. */
  ghost predicate Over(k: Keys, slack: nat, rest: nat, len: nat) {
    Granted(k, rest, len) && slack + rest + len + SealOverhead(k) > U16
  }

  /** Some record of a write may fill the buffer past 2^16: the first, behind the `rest` of a flight,
      or a later one, of at most `most` bytes; or the memory there is already ends past it. */
  ghost predicate SomeOver(k: Keys, rest: nat, most: nat, end: nat) {
    end > U16
    || exists slack: nat, behind: nat, len: nat ::
         slack < ALIGN_PAYLOAD && (behind == rest || behind == 0) && 0 < len <= most && Over(k, slack, behind, len)
  }

  lemma OneOver(k: Keys, rest: nat, most: nat, end: nat, slack: nat, behind: nat, len: nat, end': nat)
    requires slack < ALIGN_PAYLOAD && (behind == rest || behind == 0) && 0 < len <= most && (end' == end || end' == 0)
    ensures Over(k, slack, behind, len) || end' > U16 ==> SomeOver(k, rest, most, end)
  {
  }

  // ----- the writer

  class Writer {
    const buffer: SSLBuffer
    const bio: Transport
    var keys: Keys
    var number: nat
    var maxSendFragment: nat
    var movingBuffer: bool
    var partialWrite: bool
    var shutdown: bool
    var wnum: nat
    var wpendPending: bool
    var wpendTot: nat
    var wpendRet: nat
    var wpendType: byte
    var wpendBuf: Pointer
    var flight: Option<seq<byte>>
    var flightOffset: nat
    ghost var records: seq<Record>
    ghost var failed: bool
    /** The buffer was filled past 2^16, where its offset will wrap around. */
    ghost var torn: bool

    ghost function FlightRest(): seq<byte>
      reads this`flight, this`flightOffset
    {
      if flight.Some? && flightOffset <= |flight.value| then flight.value[flightOffset..] else []
    }

    /** Unless the buffer was filled past 2^16, every byte of every record, in the order of sealing,
        has been taken by the transport, or waits in the buffer, or in the flight behind it. */
    ghost predicate Intact()
      reads this`flight, this`flightOffset, this`records, this`number, this`torn, this`keys, buffer, buffer.buf, bio
    {
      && buffer.Valid() && number < NUMBER_LIMIT && AllMade(keys, records)
      && (flight.Some? ==> flightOffset <= |flight.value|)
      && (!torn ==>
            buffer.Fits() && Kept(bio.taken, buffer.Contents(), FlightRest(), records))
    }

    ghost predicate Valid()
      reads this, buffer, buffer.buf, bio
    {
      && Intact()
      && (buffer.size > 0 ==> wpendPending || failed)
      && (wpendPending ==> 0 < wpendTot == wpendRet)
      && 0 < maxSendFragment <= MAX_PLAIN_LENGTH
    }

    /** do_seal_record. */
    method DoSealRecord(kind: byte, content: seq<byte>) returns (ok: bool, bytes: seq<byte>)
      requires number < NUMBER_LIMIT
      modifies this`number
      ensures number < NUMBER_LIMIT
      ensures ok ==> number == old(number) + 1 && SealedBy(keys, Record(kind, content, bytes), old(number))
      ensures Reliable(keys) && old(number) + 1 < NUMBER_LIMIT ==>
        ok && |bytes| <= HEADER + |content| + keys.maxOverhead
    {
      var ct := keys.seal(kind, number, content);
      if ct.None? {
        return false, [];
      }
      bytes := [kind] + Bytes(keys.version, 2) + Bytes(|ct.value|, 2) + ct.value;
      number := (number + 1) % NUMBER_LIMIT;
      ok := number != 0;
    }

    /** tls_seal_record. */
    method SealRecord(kind: byte, content: seq<byte>) returns (ok: bool, bytes: seq<byte>, ghost rs: seq<Record>)
      requires number < NUMBER_LIMIT
      modifies this`number
      ensures number < NUMBER_LIMIT
      ensures ok ==>
        Seals(keys, kind, content, old(number), rs) && BytesOf(rs) == bytes && rs != [] && number <= old(number) + 2
      ensures Reliable(keys) && old(number) + 2 < NUMBER_LIMIT ==> ok && |bytes| <= |content| + SealOverhead(keys)
    {
      hide RecordBytes, SealedBy, Reliable;
      rs := [];
      if kind == APPLICATION_DATA && |content| > 1 && keys.splits {
        var first, second;
        ok, first := DoSealRecord(kind, content[..1]);
        if !ok {
          return false, [], [];
        }
        ok, second := DoSealRecord(kind, content[1..]);
        bytes := first + second;
        rs := [Record(kind, content[..1], first), Record(kind, content[1..], second)];
        BytesOfTwo(rs[0], rs[1]);
      } else {
        ok, bytes := DoSealRecord(kind, content);
        rs := [Record(kind, content, bytes)];
        BytesOfOne(rs[0]);
      }
    }

    /** tls_write_buffer_flush. */
    method FlushBuffer() returns (ret: int)
      requires Valid()
      modifies buffer, bio
      ensures buffer.buf == old(buffer.buf) || buffer.buf == null
      ensures Valid() && (ret > 0 <==> buffer.size == 0) && (ret <= 0 ==> bio.last == ret)
      ensures ret > 0 ==> buffer.offset == buffer.cap == 0
      ensures old(bio.taken) <= bio.taken
    {
      hide BytesOf, Kept;
      while buffer.size > 0
        invariant Valid() && old(bio.taken) <= bio.taken && buffer.buf == old(buffer.buf)
        decreases buffer.size
      {
        var data := buffer.Contents();
        ghost var taken, rest := bio.taken, FlightRest();
        var n := bio.Write(data);
        if n <= 0 {
          assert bio.taken == taken && buffer.Contents() == data && FlightRest() == rest;
          assert Intact();
          return n;
        }
        buffer.Consume(n);
        Sent(taken, data, n, rest, records);
      }
      buffer.Clear();
      return 1;
    }

    constructor (bio: Transport, keys: Keys, maxSendFragment: nat, movingBuffer: bool, partialWrite: bool)
      requires bio.taken == [] && 0 < maxSendFragment <= MAX_PLAIN_LENGTH
      ensures Valid() && fresh(buffer) && this.bio == bio && this.keys == keys && records == [] && !failed && !torn
      ensures !wpendPending && wnum == 0 && flight == None && !shutdown
      ensures this.maxSendFragment == maxSendFragment
      ensures this.movingBuffer == movingBuffer && this.partialWrite == partialWrite
    {
      hide BytesOf, Kept, SSLBuffer.Contents;
      buffer := new SSLBuffer();
      this.bio, this.keys, this.maxSendFragment := bio, keys, maxSendFragment;
      this.movingBuffer, this.partialWrite, shutdown := movingBuffer, partialWrite, false;
      number, wnum, wpendPending, wpendTot, wpendRet, wpendType := 0, 0, false, 0, 0, 0;
      wpendBuf, flight, flightOffset := Pointer(0, 0), None, 0;
      records, failed, torn := [], false, false;
      KeptNothing();
    }

    /** Whether a pending write is retried as ssl3_write_pending wants it. */
    predicate GoodRetry(kind: byte, len: nat, at: Pointer)
      reads this
    {
      wpendTot <= len && (movingBuffer || wpendBuf == at) && wpendType == kind
    }

    /** ssl3_write_pending. */
    method WritePending(kind: byte, len: nat, at: Pointer) returns (ret: int)
      requires Valid() && wpendPending
      modifies this`wpendPending, buffer, bio
      ensures buffer.buf == old(buffer.buf) || buffer.buf == null
      ensures Valid() && old(bio.taken) <= bio.taken
      ensures ret > 0 <==> !wpendPending
      ensures ret > 0 ==> ret == wpendRet && GoodRetry(kind, len, at) && buffer.size == 0
      ensures ret > 0 ==> buffer.offset == buffer.cap == 0
      ensures ret <= 0 && GoodRetry(kind, len, at) ==> bio.last == ret
      ensures len < wpendTot || kind != wpendType || (!movingBuffer && at != wpendBuf) ==>
        ret == -1 && bio.taken == old(bio.taken)
    {
      if wpendTot > len || (!movingBuffer && wpendBuf != at) || wpendType != kind {
        return -1;
      }
      ret := FlushBuffer();
      if ret <= 0 {
        return;
      }
      wpendPending := false;
      return wpendRet;
    }

    /** Sealing `n` more pieces of plaintext cannot fail: neither does encryption, nor do the record
        numbers run out. */
    ghost predicate Working(n: nat)
      reads this`keys, this`number
    {
      Reliable(keys) && number + 2 * n < NUMBER_LIMIT
    }

    /** A write of `len` bytes may fill the buffer past 2^16. */
    ghost predicate MayTear(slack: nat, len: nat)
      reads this`keys, this`flight, this`flightOffset, buffer
    {
      len > 0 && (Over(keys, slack, |FlightRest()|, len) || buffer.offset + buffer.cap > U16)
    }

    /** What is left of the flight moves to the buffer, before any data. */
    method QueueFlight(slack: nat, room: nat) returns (ok: bool)
      requires Intact() && buffer.size == 0 && slack < ALIGN_PAYLOAD
      modifies this`flight, this`flightOffset, this`torn, buffer, buffer.buf
      ensures Intact() && (buffer.buf != old(buffer.buf) ==> fresh(buffer.buf))
      ensures if ok then flight.None? && buffer.size + room <= buffer.cap
              else buffer.size == 0 && flight == old(flight) && flightOffset == old(flightOffset)
      ensures ok <==> |old(FlightRest())| + room < U16
      ensures if ok && |old(FlightRest())| + room > old(buffer.cap)
              then buffer.offset == slack && buffer.cap == |old(FlightRest())| + room
              else buffer.offset == old(buffer.offset) && buffer.cap == old(buffer.cap)
      ensures torn ==> old(torn) || buffer.offset + buffer.cap > U16
      ensures old(torn) ==> torn
    {
      hide BytesOf, Kept, SSLBuffer.Contents;
      var flightLen := 0;
      if flight.Some? {
        flightLen := |flight.value| - flightOffset;
      }
      ok := buffer.EnsureCap(slack, room + flightLen);
      if ok && flight.Some? {
        MoveFlight();
      }
    }

    method MoveFlight()
      requires Intact() && flight.Some? && buffer.size == 0 && |FlightRest()| <= buffer.cap
      modifies this`flight, this`flightOffset, this`torn, buffer`size, buffer.buf
      ensures Intact() && flight.None? && buffer.size == |old(FlightRest())|
      ensures (torn ==> old(torn) || buffer.offset + buffer.cap > U16) && (old(torn) ==> torn)
    {
      hide BytesOf, Kept, SSLBuffer.Contents;
      Queued(bio.taken, buffer.Contents(), FlightRest(), records);
      buffer.Append(flight.value[flightOffset..]);
      flight, flightOffset := None, 0;
      torn := torn || !buffer.Fits();
    }

    /** New records at the end of the buffer. */
    method AppendRecord(kind: byte, data: seq<byte>) returns (ok: bool)
      requires Intact() && flight.None?
      modifies this`number, this`records, this`torn, buffer`size, buffer.buf
      ensures Intact() && (old(torn) ==> torn) && (torn ==> old(torn) || buffer.offset + buffer.cap > U16)
      ensures if ok then Wrote(kind, data) && number <= old(number) + 2 else records == old(records)
      ensures old(Working(1)) && buffer.cap - old(buffer.size) >= |data| + SealOverhead(keys) ==> ok
    {
      hide BytesOf, Kept, Seals, RecordBytes, SSLBuffer.Contents, SSLBuffer.Valid, Reliable, SealOverhead;
      var bytes;
      ghost var rs;
      ok, bytes, rs := SealRecord(kind, data);
      if !ok || |bytes| > buffer.cap - buffer.size {
        return false;
      }
      Added(bio.taken, buffer.Contents(), records, rs);
      SealsMade(keys, records, kind, data, old(number), rs);
      buffer.Append(bytes);
      torn := torn || !buffer.Fits();
      records := records + rs;
      assert records[|old(records)|..] == rs;
    }

    /** The records of a new write, and what a retry must look like. */
    method Commit(kind: byte, data: seq<byte>, at: Pointer) returns (ok: bool)
      requires Intact() && flight.None? && !wpendPending && data != [] && 0 < maxSendFragment <= MAX_PLAIN_LENGTH
      modifies this`number, this`records, this`failed, this`wpendTot, this`wpendBuf, this`wpendType
      modifies this`wpendRet, this`wpendPending, this`torn, buffer`size, buffer.buf
      ensures Valid() && wpendPending == ok
      ensures (old(torn) ==> torn) && (torn ==> old(torn) || buffer.offset + buffer.cap > U16)
      ensures if ok then
                failed == old(failed) && Wrote(kind, data) && Awaits(kind, data, at) && number <= old(number) + 2
              else failed && records == old(records)
      ensures old(Working(1)) && buffer.cap - old(buffer.size) >= |data| + SealOverhead(keys) ==> ok
    {
      hide BytesOf, Kept, Seals, SSLBuffer.Contents, SSLBuffer.Valid, Working, SealOverhead;
      ok := AppendRecord(kind, data);
      if !ok {
        failed := true;
        return;
      }
      wpendTot, wpendBuf, wpendType, wpendRet, wpendPending := |data|, at, kind, |data|, true;
    }

    ghost predicate Awaits(kind: byte, data: seq<byte>, at: Pointer)
      reads this`wpendTot, this`wpendBuf, this`wpendType, this`wpendRet
    {
      wpendTot == wpendRet == |data| && wpendBuf == at && wpendType == kind
    }

    /** do_ssl3_write, when nothing is pending: what is left of the flight moves to the front of
        the buffer, and the data follows as new records. */
    method WriteNew(kind: byte, data: seq<byte>, at: Pointer, slack: nat) returns (ret: int)
      requires Valid() && !wpendPending && slack < ALIGN_PAYLOAD
      modifies this, buffer, buffer.buf, bio
      ensures (old(torn) ==> torn) && (torn && !old(torn) ==> old(MayTear(slack, |data|)))
      ensures ret > 0 ==> buffer.offset == buffer.cap == 0
      ensures Valid() && old(bio.taken) <= bio.taken && Settings() == old(Settings()) && wnum == old(wnum)
      ensures buffer.buf != old(buffer.buf) ==> buffer.buf == null || fresh(buffer.buf)
      ensures data == [] || |data| > MAX_PLAIN_LENGTH ==> ret <= 0 && records == old(records) && !wpendPending
      ensures FlightRest() == old(FlightRest()) || FlightRest() == []
      ensures (old(failed) ==> failed) && ret <= |data|
        && (data == [] ==> number == old(number) && failed == old(failed))
      ensures old(Working(1)) ==> failed == old(failed) && number <= old(number) + 2
      ensures data != [] && |data| <= MAX_PLAIN_LENGTH ==>
        Written(kind, data, at, ret) || (NotWritten(ret) && (failed || !old(Granted(keys, |FlightRest()|, |data|))))
      ensures failed && !old(failed) ==> NotWritten(ret)
    {
      hide BytesOf, Kept, Seals, SSLBuffer.Contents, SSLBuffer.Valid;
      if |data| > MAX_PLAIN_LENGTH || buffer.size > 0 {
        return -1;
      }
      if data == [] {
        return 0;
      }
      var ok := Prepare(kind, data, at, slack);
      if !ok {
        return -1;
      }
      ret := WritePending(kind, |data|, at);
    }

    /** The part of do_ssl3_write that fills the buffer. */
    method Prepare(kind: byte, data: seq<byte>, at: Pointer, slack: nat) returns (ok: bool)
      requires Valid() && !wpendPending && slack < ALIGN_PAYLOAD && buffer.size == 0 && data != []
      modifies this, buffer, buffer.buf
      ensures Valid() && Settings() == old(Settings()) && wnum == old(wnum) && wpendPending == ok
      ensures (old(torn) ==> torn) && (torn && !old(torn) ==> old(MayTear(slack, |data|)))
      ensures buffer.buf != old(buffer.buf) ==> fresh(buffer.buf)
      ensures FlightRest() == old(FlightRest()) || FlightRest() == []
      ensures old(failed) ==> failed
      ensures if ok then
                failed == old(failed) && Wrote(kind, data) && Awaits(kind, data, at) && number <= old(number) + 2
              else records == old(records) && (failed || !old(Granted(keys, |FlightRest()|, |data|)))
      ensures old(Working(1)) ==> failed == old(failed) && number <= old(number) + 2
    {
      hide BytesOf, Kept, Seals, SSLBuffer.Contents, SSLBuffer.Valid, Reliable;
      ok := QueueFlight(slack, |data| + SealOverhead(keys));
      if ok {
        ok := Commit(kind, data, at);
      }
    }

    ghost function Settings(): (Keys, nat, bool, bool, bool)
      reads this`keys, this`maxSendFragment, this`movingBuffer, this`partialWrite, this`shutdown
    {
      (keys, maxSendFragment, movingBuffer, partialWrite, shutdown)
    }

    /** The data was sealed, once, behind all earlier records. */
    twostate predicate Wrote(kind: byte, data: seq<byte>)
      reads this`keys, this`records
    {
      && old(records) < records
      && Seals(keys, kind, data, old(number), records[|old(records)|..])
    }

    /** The data was sealed, and is on its way or pending. */
    twostate predicate Written(kind: byte, data: seq<byte>, at: Pointer, ret: int)
      reads this, bio
    {
      && Wrote(kind, data) && Awaits(kind, data, at)
      && if ret > 0 then !wpendPending && ret == |data| else wpendPending && bio.last == ret
    }

    /** Nothing was sealed. */
    twostate predicate NotWritten(ret: int)
      reads this
    {
      ret == -1 && records == old(records) && !wpendPending
    }

    /** do_ssl3_write. */
    method DoWrite(kind: byte, data: seq<byte>, at: Pointer, slack: nat) returns (ret: int)
      requires Valid() && slack < ALIGN_PAYLOAD
      modifies this, buffer, buffer.buf, bio
      ensures (old(torn) ==> torn) && (torn && !old(torn) ==> !old(wpendPending) && old(MayTear(slack, |data|)))
      ensures ret > 0 ==> buffer.offset == buffer.cap == 0
      ensures Valid() && old(bio.taken) <= bio.taken && Settings() == old(Settings()) && wnum == old(wnum)
      ensures buffer.buf != old(buffer.buf) ==> buffer.buf == null || fresh(buffer.buf)
      ensures FlightRest() == old(FlightRest()) || FlightRest() == []
      ensures old(wpendPending) ==>
        && records == old(records) && failed == old(failed) && Pending() == old(Pending())
        && (ret > 0 <==> !wpendPending) && (ret > 0 ==> ret == wpendRet && GoodRetry(kind, |data|, at))
        && (ret <= 0 && GoodRetry(kind, |data|, at) ==> bio.last == ret)
      ensures !old(wpendPending) && (data == [] || |data| > MAX_PLAIN_LENGTH) ==>
        ret <= 0 && records == old(records) && !wpendPending
      ensures (old(failed) ==> failed) && ret <= |data|
        && (data == [] ==> number == old(number) && failed == old(failed))
      ensures old(Working(1)) ==> failed == old(failed) && number <= old(number) + 2
      ensures !old(wpendPending) && data != [] && |data| <= MAX_PLAIN_LENGTH ==>
        Written(kind, data, at, ret) || (NotWritten(ret) && (failed || !old(Granted(keys, |FlightRest()|, |data|))))
      ensures failed && !old(failed) ==> NotWritten(ret)
    {
      if wpendPending {
        ret := WritePending(kind, |data|, at);
      } else {
        ret := WriteNew(kind, data, at, slack);
      }
    }

    ghost function Pending(): (nat, nat, byte, Pointer)
      reads this`wpendTot, this`wpendRet, this`wpendType, this`wpendBuf
    {
      (wpendTot, wpendRet, wpendType, wpendBuf)
    }

    /** How much of the caller's data has been sealed. */
    ghost function Sealed(): nat
      reads this`wnum, this`wpendPending, this`wpendTot, this`wpendType
    {
      wnum + if wpendPending && wpendType == APPLICATION_DATA then wpendTot else 0
    }

    /** The application data sealed so far is what earlier writes reported as written, and the
        first part of the data of the write under way. */
    ghost predicate InStep(accepted: seq<byte>, data: seq<byte>)
      reads this`wnum, this`wpendPending, this`wpendTot, this`wpendType, this`records
    {
      Sealed() <= |data| && AppData(records) == accepted + data[..Sealed()]
    }

    /** A retry from the same place, with the write pending if there is one. */
    ghost predicate Resumes(at: Pointer)
      reads this`wnum, this`wpendPending, this`wpendTot, this`wpendType, this`wpendBuf
      reads this`movingBuffer, this`maxSendFragment
    {
      wpendPending ==>
        && wpendType == APPLICATION_DATA && (movingBuffer || wpendBuf == at.Plus(wnum))
        && wpendTot <= maxSendFragment
    }

    /** What holds between two records of a write. */
    ghost predicate Between(accepted: seq<byte>, data: seq<byte>, at: Pointer, tot: nat)
      reads this`wpendPending, this`wpendTot, this`wpendType, this`records, this`wpendBuf
      reads this`movingBuffer, this`maxSendFragment
    {
      && (if wpendPending then
            wpendType == APPLICATION_DATA && (movingBuffer || wpendBuf == at.Plus(tot))
            && tot + wpendTot <= |data| && wpendTot <= maxSendFragment
            && AppData(records) == accepted + data[..tot + wpendTot]
          else tot <= |data| && AppData(records) == accepted + data[..tot])
    }

    /** One record of a write, or the one that is pending. */
    method WriteFragment(data: seq<byte>, at: Pointer, slack: nat, tot: nat, nw: nat, ghost accepted: seq<byte>)
      returns (ret: int)
      requires Valid() && slack < ALIGN_PAYLOAD && wnum == 0
      requires tot <= |data| && nw == (if |data| - tot > maxSendFragment then maxSendFragment else |data| - tot)
      modifies this, buffer, buffer.buf, bio
      ensures Valid() && old(bio.taken) <= bio.taken && Settings() == old(Settings()) && wnum == 0
      ensures buffer.buf != old(buffer.buf) ==> buffer.buf == null || fresh(buffer.buf)
      ensures CutTo(maxSendFragment, old(records), records)
      ensures (old(failed) ==> failed) && ret <= nw && (nw == 0 ==> number == old(number) && failed == old(failed))
      ensures old(Working(1)) ==> failed == old(failed) && number <= old(number) + 2
      ensures failed && !old(failed) ==> ret <= 0
      ensures FlightRest() == old(FlightRest()) || FlightRest() == []
      ensures (old(torn) ==> torn) && (torn && !old(torn) ==> !old(wpendPending) && old(MayTear(slack, nw)))
      ensures ret > 0 ==> buffer.offset == buffer.cap == 0
      ensures old(Between(accepted, data, at, tot)) ==>
        && ret <= |data| - tot
        && (if ret > 0 then !wpendPending && Between(accepted, data, at, tot + ret)
            else Between(accepted, data, at, tot)
                 && (tot < |data| ==>
                       bio.last == ret || (ret == -1 && (failed || !old(Granted(keys, |FlightRest()|, nw))))))
    {
      hide Intact, Seals, AppData, CutTo, SSLBuffer.Contents, SSLBuffer.Valid;
      var piece := data[tot..tot + nw];
      ret := DoWrite(APPLICATION_DATA, piece, at.Plus(tot), slack);
      if records == old(records) {
        CutNothing(maxSendFragment, records);
      } else {
        SealsCut(keys, APPLICATION_DATA, piece, old(number), old(records), records, maxSendFragment);
      }
      if !old(wpendPending) && piece != [] && |records| > |old(records)| {
        DataMore(keys, old(records), records, old(number), accepted, data, tot, tot + nw);
      }
    }

    /** ssl3_write_app_data.  `slack` says how far new memory for the record at some place is from
        its alignment; `accepted` is the application data that earlier calls reported as
        written.  Over any number of short or blocked transport writes, a caller that retries
        with data that begins as before has exactly the data it is told was written sealed and
        handed to the transport, once and in order. */
    method WriteAppData(data: seq<byte>, at: Pointer, slack: nat -> nat, ghost accepted: seq<byte>) returns (ret: int)
      requires Valid() && forall n :: slack(n) < ALIGN_PAYLOAD
      modifies this, buffer, buffer.buf, bio
      ensures old(torn) ==> torn
      ensures torn && !old(torn) ==> old(SomeOver(keys, |FlightRest()|, maxSendFragment, buffer.offset + buffer.cap))
      ensures Valid() && old(bio.taken) <= bio.taken && Settings() == old(Settings())
      ensures shutdown ==> ret == -1 && Sealed() == old(Sealed()) && records == old(records)
      ensures !shutdown && |data| < old(wnum) ==> ret == -1 && wnum == 0 && records == old(records)
      ensures ret <= |data| && (old(failed) ==> failed) && (failed && !old(failed) ==> ret <= 0)
      ensures old(Working(|data|)) ==> failed == old(failed)
      ensures CutTo(maxSendFragment, old(records), records)
      ensures !shutdown && old(InStep(accepted, data)) && old(Resumes(at)) ==>
        if ret > 0 then
          && AppData(records) == accepted + data[..ret] && Sealed() == 0 && !wpendPending
          && (partialWrite || ret == |data|)
        else
          && InStep(accepted, data) && Resumes(at)
          && (|data| > old(wnum) ==>
                bio.last == ret || (ret == -1 && (failed || !old(Granted(keys, |FlightRest()|, maxSendFragment)))))
    {
      hide Intact, AppData, CutTo, SSLBuffer.Contents, SSLBuffer.Valid, SomeOver, Over, Reliable;
      CutNothing(maxSendFragment, records);
      if shutdown {
        return -1;
      }
      var tot := wnum;
      wnum := 0;
      if |data| < tot {
        return -1;
      }
      tot, ret := WriteFrom(data, at, slack, tot, accepted);
      if ret <= 0 {
        wnum := tot;
        return;
      }
      return tot + ret;
    }

    /** The loop of ssl3_write_app_data: records from `from` on, until one does not go through.
        `tot` is where that, or the last one, begins. */
    method WriteFrom(data: seq<byte>, at: Pointer, slack: nat -> nat, from: nat, ghost accepted: seq<byte>)
      returns (tot: nat, ret: int)
      requires Valid() && (forall n :: slack(n) < ALIGN_PAYLOAD) && from <= |data| && wnum == 0
      modifies this, buffer, buffer.buf, bio
      ensures Valid() && old(bio.taken) <= bio.taken && Settings() == old(Settings()) && wnum == 0
      ensures (old(failed) ==> failed) && (old(torn) ==> torn) && (failed && !old(failed) ==> ret <= 0)
      ensures old(Working(|data| - from)) ==> failed == old(failed)
      ensures CutTo(maxSendFragment, old(records), records)
      ensures torn && !old(torn) ==> old(SomeOver(keys, |FlightRest()|, maxSendFragment, buffer.offset + buffer.cap))
      ensures tot <= |data| && ret <= |data| - tot
      ensures old(Between(accepted, data, at, from)) ==>
        if ret > 0 then
          !wpendPending && Between(accepted, data, at, tot + ret) && (partialWrite || tot + ret == |data|)
        else
          && Between(accepted, data, at, tot)
          && (from < |data| ==>
                bio.last == ret || (ret == -1 && (failed || !old(Granted(keys, |FlightRest()|, maxSendFragment)))))
    {
      hide Intact, AppData, CutTo, SSLBuffer.Contents, SSLBuffer.Valid, SomeOver, Over, Between, Reliable;
      CutNothing(maxSendFragment, records);
      tot := from;
      var n := |data| - tot;
      while true
        invariant Valid() && old(bio.taken) <= bio.taken && Settings() == old(Settings()) && wnum == 0
        invariant buffer.buf != old(buffer.buf) ==> buffer.buf == null || fresh(buffer.buf)
        invariant (old(failed) ==> failed) && (FlightRest() == old(FlightRest()) || FlightRest() == [])
        invariant (old(torn) ==> torn)
        invariant torn && !old(torn) ==>
          old(SomeOver(keys, |FlightRest()|, maxSendFragment, buffer.offset + buffer.cap))
        invariant
          || buffer.offset == buffer.cap == 0
          || (buffer.offset == old(buffer.offset) && buffer.cap == old(buffer.cap))
        invariant tot <= |data| && n == |data| - tot && (from < |data| ==> n > 0)
        invariant (failed ==> old(failed)) && CutTo(maxSendFragment, old(records), records)
        invariant from <= tot && (old(Working(|data| - from)) ==> number <= old(number) + 2 * (tot - from))
        invariant old(Between(accepted, data, at, from)) ==> Between(accepted, data, at, tot)
        decreases n
      {
        var nw := if n > maxSendFragment then maxSendFragment else n;
        if nw > 0 {
          OneOver(keys, old(|FlightRest()|), maxSendFragment, old(buffer.offset + buffer.cap),
                  slack(tot), |FlightRest()|, nw, buffer.offset + buffer.cap);
        }
        ghost var before := records;
        ret := WriteFragment(data, at, slack(tot), tot, nw, accepted);
        CutOn(maxSendFragment, old(records), before, records);
        if ret <= 0 || ret == n || partialWrite {
          return;
        }
        n := n - ret;
        tot := tot + ret;
      }
    }

    /** add_record_to_flight; a flight is not added to while it is being written out. */
    method AddRecordToFlight(kind: byte, content: seq<byte>) returns (ok: bool)
      requires Valid() && (flight.Some? ==> flightOffset == 0)
      modifies this`number, this`records, this`flight, this`flightOffset
      ensures Valid() && (ok ==> Wrote(kind, content)) && (!ok ==> records == old(records))
      ensures old(Working(1)) ==> ok
      ensures flight.Some? && flightOffset == 0
    {
      hide BytesOf, Kept, Seals, RecordBytes, SSLBuffer.Contents, SSLBuffer.Valid;
      if flight.None? {
        flight, flightOffset := Some([]), 0;
      }
      var bytes;
      ghost var rs;
      ok, bytes, rs := SealRecord(kind, content);
      if !ok {
        return;
      }
      Behind(bio.taken, buffer.Contents(), flight.value, records, rs);
      SealsMade(keys, records, kind, content, old(number), rs);
      flight, records := Some(flight.value + bytes), records + rs;
      assert records[|old(records)|..] == rs && flight.value[0..] == flight.value;
    }

    /** Once nothing waits any more, what the transport has taken is read back as the records sealed,
        in order, if none is longer than its header can tell. */
    lemma TakenReadsBack()
      requires Valid() && !torn && buffer.size == 0 && FlightRest() == [] && AllShort(records)
      ensures ReadFrames(bio.taken).Some? && Shows(keys.version, records, ReadFrames(bio.taken).value)
    {
      hide BytesOf, AllMade, AllShort, Shows;
      Finished(bio.taken, buffer.Contents(), records);
      FramesReadBack(keys, records);
    }

    /** One write of what is left of the flight. */
    method WriteFlight() returns (n: int)
      requires Valid() && flight.Some? && flightOffset < |flight.value| && buffer.size == 0
      modifies this`flightOffset, bio
      ensures Valid() && old(bio.taken) <= bio.taken && bio.last == n
      ensures flightOffset == old(flightOffset) + if n > 0 then n else 0
    {
      hide BytesOf, Kept, SSLBuffer.Contents;
      ghost var taken, rest := bio.taken, FlightRest();
      Direct(taken, buffer.Contents(), rest, 0, records);
      n := bio.Write(flight.value[flightOffset..]);
      if n > 0 {
        Direct(taken, buffer.Contents(), rest, n, records);
        flightOffset := flightOffset + n;
        assert FlightRest() == rest[n..];
      }
      assert bio.taken == taken + rest[..if n > 0 then n else 0];
    }

    /** ssl3_flush_flight: what is in the buffer goes first. */
    method FlushFlight() returns (ret: int)
      requires Valid()
      modifies this`flight, this`flightOffset, buffer, bio
      ensures Valid() && old(bio.taken) <= bio.taken
      ensures ret > 0 && old(flight).Some? ==>
        flight.None? && buffer.size == 0 && (!torn ==> bio.taken == BytesOf(records))
      ensures ret <= 0 ==> (shutdown && ret == -1) || bio.last <= 0 || (flight.Some? && |flight.value| > 0x7fff_ffff)
    {
      hide BytesOf, Kept, SSLBuffer.Contents, SSLBuffer.Valid;
      if flight.None? {
        return 1;
      }
      if shutdown || |flight.value| > 0x7fff_ffff {
        return -1;
      }
      if buffer.size > 0 {
        ret := FlushBuffer();
        if ret <= 0 {
          return;
        }
      }
      while flightOffset < |flight.value|
        invariant Valid() && old(bio.taken) <= bio.taken && flight == old(flight) && buffer.size == 0
        decreases |flight.value| - flightOffset
      {
        ret := WriteFlight();
        if ret <= 0 {
          return;
        }
      }
      assert FlightRest() == [];
      Finished(bio.taken, buffer.Contents(), records);
      ret := bio.Answer(1);
      if ret <= 0 {
        return -1;
      }
      flight, flightOffset := None, 0;
      return 1;
    }
  }
}
