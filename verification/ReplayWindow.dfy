/** The anti-replay window of a DTLS epoch (section 4.1.2.6 of RFC 6347): a 64-bit word stands
    for the last 64 sequence numbers, and refines the set of all numbers ever recorded. */
module ReplayWindow {
  import opened Wrappers
  import opened Bits
  import opened Wire
  import opened NetworkOrder

  const WINDOW: nat := 64
  const MAX_PLAIN_LENGTH: nat := 16384
  const MAX_ENCRYPTED_LENGTH: nat := 16384 + 256 + 64
  const VERSION_MAJOR: nat := 0xfe
  const ALERT: byte := 21

  // ----- the specification: the set of recorded numbers

  ghost predicate IsMax(seen: set<nat>, max: nat) {
    (seen == {} ==> max == 0) && (seen != {} ==> max in seen) && forall s :: s in seen ==> s <= max
  }

  /** A number is refused when it was recorded before, or lies a whole window below the largest. */
  ghost predicate Stale(seen: set<nat>, max: nat, s: nat) {
    s in seen || s + WINDOW <= max
  }

  /** Bit i of the word `map_` says whether the number i below `max` is recorded. */
  ghost predicate WindowBits(map_: nat, seen: set<nat>, max: nat) {
    forall i :: 0 <= i < WINDOW ==> (Bit(map_, i) <==> i <= max && max - i in seen)
  }

  /** The word `map_` shows the window that ends at `max`. */
  ghost predicate Shows(map_: nat, seen: set<nat>, max: nat) {
    map_ < TWO_64 && IsMax(seen, max) && WindowBits(map_, seen, max)
  }

  // ----- sequence numbers on the wire

  /** to_u64_be. */
  method ToU64BE(bs: seq<byte>) returns (v: nat)
    requires |bs| == 8
    ensures v == BigEndian(bs) < TWO_64
  {
    ShlWords();
    v := 0;
    var i := 0;
    while i < 8
      invariant 0 <= i <= 8 && v == BigEndian(bs[..i])
    {
      assert bs[..i + 1][..i] == bs[..i];
      v := 256 * v + bs[i];
      i := i + 1;
    }
    assert bs[..8] == bs;
  }

  // ----- sliding

  lemma ZeroShows()
    ensures Shows(0, {}, 0)
  {
    forall i | 0 <= i < WINDOW
      ensures !Bit(0, i)
    {
      BitOfZero(i);
    }
  }

  /** Nothing recorded lies in a window that starts above the old one. */
  lemma JumpShows(seen: set<nat>, max: nat, s: nat)
    requires IsMax(seen, max) && max + WINDOW <= s
    ensures WindowBits(0, seen, s)
  {
    forall i | 0 <= i < WINDOW
      ensures Bit(0, i) <==> i <= s && s - i in seen
    {
      BitOfZero(i);
    }
  }

  lemma ShiftShows(map_: nat, seen: set<nat>, max: nat, s: nat)
    requires Shows(map_, seen, max) && max < s < max + WINDOW
    ensures WindowBits(Shl(map_, s - max) % TWO_64, seen, s)
  {
    ShlWords();
    var shift := s - max;
    var slid := Shl(map_, shift) % TWO_64;
    forall i | 0 <= i < WINDOW
      ensures Bit(slid, i) <==> i <= s && s - i in seen
    {
      BitOfMod(Shl(map_, shift), 64, i);
      BitOfShl(map_, shift, i);
      if i >= shift {
        assert max - (i - shift) == s - i;
      }
    }
  }

  lemma MarkShows(map_: nat, seen: set<nat>, max: nat, s: nat)
    requires map_ < TWO_64 && s <= max < s + WINDOW
    requires IsMax(seen + {s}, max) && WindowBits(map_, seen, max)
    ensures Shows(SetBit(map_, max - s), seen + {s}, max)
  {
    ShlWords();
    SetBitBound(map_, max - s, 64);
    var marked := SetBit(map_, max - s);
    forall i | 0 <= i < WINDOW
      ensures Bit(marked, i) <==> i <= max && max - i in seen + {s}
    {
      BitOfSet(map_, max - s, i);
    }
  }

  /** DTLS1_BITMAP. `seen` is every number recorded. */
  class Bitmap {
    var map_: nat
    var maxSeqNum: nat
    ghost var seen: set<nat>

    ghost predicate Valid()
      reads this
    {
      Shows(map_, seen, maxSeqNum) && maxSeqNum < TWO_64
    }

    constructor ()
      ensures Valid() && seen == {} && maxSeqNum == 0
    {
      map_ := 0;
      maxSeqNum := 0;
      seen := {};
      ZeroShows();
    }

    method Clear()
      modifies this
      ensures Valid() && seen == {} && maxSeqNum == 0
    {
      ZeroShows();
      map_, maxSeqNum, seen := 0, 0, {};
    }

    /** dtls1_bitmap_should_discard. */
    method ShouldDiscard(seqNum: seq<byte>) returns (discard: bool)
      requires Valid() && |seqNum| == 8
      ensures discard <==> Stale(seen, maxSeqNum, BigEndian(seqNum))
    {
      var s := ToU64BE(seqNum);
      if s > maxSeqNum {
        return false;
      }
      var idx := maxSeqNum - s;
      return idx >= WINDOW || Bit(map_, idx);
    }

    /** dtls1_bitmap_record: a number that is not stale joins the set. */
    method Record(seqNum: seq<byte>)
      requires Valid() && |seqNum| == 8
      modifies this
      ensures Valid()
      ensures var s := BigEndian(seqNum);
              && maxSeqNum == (if s > old(maxSeqNum) then s else old(maxSeqNum))
              && seen == (if s + WINDOW <= old(maxSeqNum) then old(seen) else old(seen) + {s})
    {
      var s := ToU64BE(seqNum);
      if s > maxSeqNum {
        var shift := s - maxSeqNum;
        if shift >= WINDOW {
          JumpShows(seen, maxSeqNum, s);
          map_ := 0;
        } else {
          ShiftShows(map_, seen, maxSeqNum, s);
          map_ := Shl(map_, shift) % TWO_64;
        }
        maxSeqNum := s;
      }
      var idx := maxSeqNum - s;
      if idx < WINDOW {
        MarkShows(map_, seen, maxSeqNum, s);
        map_ := SetBit(map_, idx);
        seen := seen + {s};
      }
    }
  }

  // ----- opening records

  /** What reading depends on besides the window: whether the cipher is the null cipher, the
      version it wants on records, and what authenticated decryption makes of a record's type,
      version, sequence number and body, if anything. */
  datatype Keys = Keys(isNull: bool, version: nat, open: (byte, nat, seq<byte>, seq<byte>) -> Option<seq<byte>>)

  datatype Record = Record(kind: byte, version: nat, sequence: seq<byte>, body: seq<byte>)

  datatype Opened =
    | CloseNotify
    | Partial
    | Discard
    | Error
    | Alert(plain: seq<byte>)
    | Success(kind: byte, plain: seq<byte>)

  /** A 13-byte header, then a body of the length the header says, not longer than any cipher
      makes it. */
  function ParseRecord(data: seq<byte>): (r: Option<Record>)
    ensures r.Some? ==> |r.value.sequence| == 8
    ensures r.Some? ==> |data| >= 13 + |r.value.body| && data[13..13 + |r.value.body|] == r.value.body
  {
    if |data| < 13 then None
    else
      var len := BigEndian(data[11..13]);
      if len > |data| - 13 || len > MAX_ENCRYPTED_LENGTH then None
      else Some(Record(data[0], BigEndian(data[1..3]), data[3..11], data[13..13 + len]))
  }

  /** Where a reader finds it: type, version, eight bytes of epoch and number, 16 bits of length, high
      bytes first, and the body; the first two of the eight are the epoch. */
  lemma RecordRead(data: seq<byte>)
    ensures ParseRecord(data) ==
            if |data| < 13 || |data| < 13 + Word16(data[11], data[12]) || Word16(data[11], data[12]) > 16704 then None
            else
              var end := 13 + Word16(data[11], data[12]);
              Some(Record(data[0], Word16(data[1], data[2]), data[3..11], data[13..end]))
    ensures |data| >= 11 ==> BigEndian(data[3..11][..2]) == Word16(data[3], data[4])
  {
    hide BigEndian;
    if |data| >= 13 {
      ReadPair(data[1..3]);
      ReadPair(data[11..13]);
    }
    if |data| >= 11 {
      ReadPair(data[3..11][..2]);
    }
  }

  /** What a reader knows: the window as the set of all numbers recorded in this epoch. */
  datatype View = View(epoch: nat, seen: set<nat>, max: nat, keys: Keys, closed: bool)

  ghost predicate VersionOk(keys: Keys, version: nat) {
    if keys.isNull then version / 256 == VERSION_MAJOR else version == keys.version
  }

  /** Whether a record may be decrypted at all. */
  ghost predicate Admissible(v: View, rec: Record)
    requires |rec.sequence| == 8
  {
    && VersionOk(v.keys, rec.version)
    && BigEndian(rec.sequence[..2]) == v.epoch
    && !Stale(v.seen, v.max, BigEndian(rec.sequence))
  }

  ghost function Decrypted(v: View, rec: Record): Option<seq<byte>> {
    v.keys.open(rec.kind, rec.version, rec.sequence, rec.body)
  }

  /** The sequence number `data` adds to the window: that of a well-formed, fresh, authentic
      record of this epoch, and nothing else. */
  ghost function Accepts(v: View, data: seq<byte>): (s: Option<seq<byte>>)
    ensures s.Some? ==> |s.value| == 8
  {
    var rec := ParseRecord(data);
    if v.closed || rec.None? || !Admissible(v, rec.value) then None
    else
      var plain := Decrypted(v, rec.value);
      if plain.None? || |plain.value| > MAX_PLAIN_LENGTH then None else Some(rec.value.sequence)
  }

  /** An admissible and authentic record that decrypts to too much. */
  ghost predicate Oversized(v: View, data: seq<byte>) {
    var rec := ParseRecord(data);
    && !v.closed && rec.Some? && Admissible(v, rec.value)
    && var plain := Decrypted(v, rec.value); plain.Some? && |plain.value| > MAX_PLAIN_LENGTH
  }

  /** How much of the data is used up: all of it if that is no record of a version that is read. */
  ghost function Consumes(v: View, data: seq<byte>): (n: nat)
    ensures n <= |data| && (!v.closed && data != [] ==> n > 0)
  {
    var rec := ParseRecord(data);
    if v.closed then 0
    else if rec.None? || !VersionOk(v.keys, rec.value.version) then |data|
    else 13 + |rec.value.body|
  }

  /** The record at the head of some data is accepted exactly if its header is whole, its version and
      epoch are those that are read, its number is neither recorded nor 64 below the largest, and it
      decrypts to no more than a record may hold. */
  lemma AcceptedExactly(v: View, data: seq<byte>)
    ensures Accepts(v, data).Some? <==>
            && !v.closed && |data| >= 13
            && |data| >= 13 + Word16(data[11], data[12]) && Word16(data[11], data[12]) <= 16704
            && (if v.keys.isNull then data[1] == 0xfe else Word16(data[1], data[2]) == v.keys.version)
            && Word16(data[3], data[4]) == v.epoch
            && BigEndian(data[3..11]) !in v.seen && v.max < BigEndian(data[3..11]) + 64
            && var plain := v.keys.open(data[0], Word16(data[1], data[2]), data[3..11],
                                        data[13..13 + Word16(data[11], data[12])]);
               plain.Some? && |plain.value| <= 16384
    ensures Accepts(v, data).Some? ==> Accepts(v, data) == Some(data[3..11])
  {
    hide BigEndian, ParseRecord;
    RecordRead(data);
    if |data| >= 13 {
      assert Word16(data[1], data[2]) / 256 == data[1] as int;
    }
  }

  lemma AcceptsParsed(v: View, data: seq<byte>)
    ensures var rec := ParseRecord(data);
            Accepts(v, data).Some? ==> rec.Some? && Decrypted(v, rec.value).Some?
  {
  }

  function Max(a: nat, b: nat): nat {
    if a > b then a else b
  }

  ghost function After(v: View, accepted: Option<seq<byte>>): View {
    if accepted.None? then v
    else
      var s := BigEndian(accepted.value);
      v.(seen := v.seen + {s}, max := Max(v.max, s))
  }

  lemma TwoBytes(bs: seq<byte>)
    requires |bs| >= 2
    ensures BigEndian(bs[..2]) == 256 * bs[0] as nat + bs[1] as nat
  {
    assert bs[..2][..1] == [bs[0]];
    assert [bs[0]][..0] == [];
  }

  /** The part of an SSL connection that opening a DTLS record uses. */
  class Reader {
    const bitmap: Bitmap
    var epoch: nat
    var keys: Keys
    var closed: bool

    ghost predicate Valid()
      reads this, bitmap
    {
      bitmap.Valid() && epoch < 65536
    }

    ghost function Now(): View
      reads this, bitmap
    {
      View(epoch, bitmap.seen, bitmap.maxSeqNum, keys, closed)
    }

    constructor (keys: Keys)
      ensures Valid() && fresh(bitmap) && Now() == View(0, {}, 0, keys, false)
    {
      bitmap := new Bitmap();
      epoch := 0;
      this.keys := keys;
      closed := false;
    }

    /** dtls_open_record. */
    method OpenRecord(data: seq<byte>) returns (r: Opened, consumed: nat)
      requires Valid()
      modifies bitmap
      ensures Valid() && Now() == After(old(Now()), Accepts(old(Now()), data))
      ensures consumed == Consumes(old(Now()), data)
      ensures r.CloseNotify? <==> closed
      ensures r.Partial? <==> !closed && data == []
      ensures r.Success? || r.Alert? <==> Accepts(old(Now()), data).Some?
      ensures r.Success? || r.Alert? ==>
        var rec := ParseRecord(data).value;
        && Some(r.plain) == Decrypted(old(Now()), rec)
        && (r.Success? ==> r.kind == rec.kind != ALERT) && (r.Alert? ==> rec.kind == ALERT)
      ensures r.Error? <==> Oversized(old(Now()), data)
    {
      hide ParseRecord, BigEndian;
      if closed {
        return CloseNotify, 0;
      }
      if data == [] {
        return Partial, 0;
      }
      var parsed := ParseRecord(data);
      if parsed.None? {
        return Discard, |data|;
      }
      var rec := parsed.value;
      var versionOk;
      if keys.isNull {
        versionOk := rec.version / 256 == VERSION_MAJOR;
      } else {
        versionOk := rec.version == keys.version;
      }
      if !versionOk {
        return Discard, |data|;
      }
      var first: nat, second: nat := rec.sequence[0], rec.sequence[1];
      TwoBytes(rec.sequence);
      consumed := 13 + |rec.body|;
      if 256 * first + second != epoch {
        return Discard, consumed;
      }
      var discard := bitmap.ShouldDiscard(rec.sequence);
      if discard {
        return Discard, consumed;
      }
      var plain := keys.open(rec.kind, rec.version, rec.sequence, rec.body);
      if plain.None? {
        return Discard, consumed;
      }
      if |plain.value| > MAX_PLAIN_LENGTH {
        return Error, consumed;
      }
      bitmap.Record(rec.sequence);
      if rec.kind == ALERT {
        return Alert(plain.value), consumed;
      }
      return Success(rec.kind, plain.value), consumed;
    }

    /** dtls1_set_read_state, when no handshake data is left over: a new epoch with an empty
        window.  The 16-bit epoch wraps. */
    method SetReadState(next: Keys)
      requires Valid()
      modifies this, bitmap
      ensures Valid() && Now() == NextEpoch(old(Now()), next)
    {
      ZeroShows();
      epoch := (epoch + 1) % 65536;
      bitmap.Clear();
      keys := next;
    }
  }

  // ----- runs

  ghost function NextEpoch(v: View, keys: Keys): View {
    View((v.epoch + 1) % 65536, {}, 0, keys, v.closed)
  }

  datatype Event = Packet(data: seq<byte>) | NewKeys(keys: Keys)

  /** The sequence numbers, epoch included, of the records a run accepts, in order. */
  ghost function Accepted(v: View, run: seq<Event>): (acc: seq<seq<byte>>)
    ensures forall i :: 0 <= i < |acc| ==> |acc[i]| == 8
    decreases |run|
  {
    if run == [] then []
    else match run[0]
      case NewKeys(keys) => Accepted(NextEpoch(v, keys), run[1..])
      case Packet(data) =>
        var s := Accepts(v, data);
        var rest := Accepted(After(v, s), run[1..]);
        if s.Some? then [s.value] + rest else rest
  }

  /** For each of them how often the keys have been changed before, starting at `turn`. */
  ghost function Turns(v: View, run: seq<Event>, turn: nat): (turns: seq<nat>)
    ensures |turns| == |Accepted(v, run)|
    decreases |run|
  {
    if run == [] then []
    else match run[0]
      case NewKeys(keys) => Turns(NextEpoch(v, keys), run[1..], turn + 1)
      case Packet(data) =>
        var s := Accepts(v, data);
        var rest := Turns(After(v, s), run[1..], turn);
        if s.Some? then [turn] + rest else rest
  }

  /** The epoch in `s` is the one that keys of this turn are used in, in 16 bits. */
  ghost predicate EpochOfTurn(epoch: nat, s: seq<byte>, turns: nat) {
    BigEndian(s[..if |s| < 2 then |s| else 2]) == (epoch + turns) % 65536
  }

  /** Turns only go up, and give the epochs. */
  ghost predicate TurnsAgree(epoch: nat, acc: seq<seq<byte>>, turns: seq<nat>, turn: nat)
    requires |acc| == |turns|
  {
    forall i :: 0 <= i < |acc| ==> turns[i] >= turn && EpochOfTurn(epoch, acc[i], turns[i] - turn)
  }

  lemma {:induction false} EpochsAreTurns(v: View, run: seq<Event>, turn: nat)
    requires v.epoch < 65536
    ensures TurnsAgree(v.epoch, Accepted(v, run), Turns(v, run, turn), turn)
    decreases |run|
  {
    hide Accepts, TurnsAgree;
    if run == [] {
      assert TurnsAgree(v.epoch, [], [], turn) by { NoTurns(v.epoch, turn); }
    } else {
      match run[0]
      case NewKeys(keys) =>
        var next := NextEpoch(v, keys);
        EpochsAreTurns(next, run[1..], turn + 1);
        LaterTurns(v.epoch, Accepted(next, run[1..]), Turns(next, run[1..], turn + 1), turn);
      case Packet(data) =>
        var s := Accepts(v, data);
        AcceptsOwnEpoch(v, data);
        EpochsAreTurns(After(v, s), run[1..], turn);
        if s.Some? {
          ThisTurn(v.epoch, s.value, Accepted(After(v, s), run[1..]), Turns(After(v, s), run[1..], turn), turn);
        }
    }
  }

  lemma NoTurns(epoch: nat, turn: nat)
    ensures TurnsAgree(epoch, [], [], turn)
  {
  }

  lemma ThisTurn(epoch: nat, s: seq<byte>, acc: seq<seq<byte>>, turns: seq<nat>, turn: nat)
    requires |acc| == |turns| && TurnsAgree(epoch, acc, turns, turn)
    requires |s| == 8 && epoch < 65536 && BigEndian(s[..2]) == epoch
    ensures TurnsAgree(epoch, [s] + acc, [turn] + turns, turn)
  {
  }

  lemma LaterTurns(epoch: nat, acc: seq<seq<byte>>, turns: seq<nat>, turn: nat)
    requires |acc| == |turns| && TurnsAgree((epoch + 1) % 65536, acc, turns, turn + 1)
    ensures TurnsAgree(epoch, acc, turns, turn)
  {
    forall i | 0 <= i < |acc|
      ensures turns[i] >= turn && EpochOfTurn(epoch, acc[i], turns[i] - turn)
    {
      assert EpochOfTurn((epoch + 1) % 65536, acc[i], turns[i] - (turn + 1));
      EpochsWrap(epoch, turns[i] - (turn + 1));
    }
  }

  lemma EpochsWrap(epoch: nat, k: nat)
    ensures ((epoch + 1) % 65536 + k) % 65536 == (epoch + (k + 1)) % 65536
  {
  }

  lemma AcceptsOwnEpoch(v: View, data: seq<byte>)
    ensures Accepts(v, data).Some? ==> BigEndian(Accepts(v, data).value[..2]) == v.epoch
  {
  }

  /** A number recorded in a turn is not accepted again in that turn. */
  lemma {:induction false} PastStaysPast(v: View, run: seq<Event>, turn: nat, s: seq<byte>)
    requires v.epoch < 65536 && BigEndian(s) in v.seen
    ensures forall i :: 0 <= i < |Accepted(v, run)| ==> Accepted(v, run)[i] != s || Turns(v, run, turn)[i] != turn
    decreases |run|
  {
    hide Accepts;
    if run != [] {
      match run[0]
      case NewKeys(keys) =>
        EpochsAreTurns(NextEpoch(v, keys), run[1..], turn + 1);
      case Packet(data) =>
        var accepted := Accepts(v, data);
        AcceptsFresh(v, data);
        PastStaysPast(After(v, accepted), run[1..], turn, s);
    }
  }

  lemma AcceptsFresh(v: View, data: seq<byte>)
    ensures Accepts(v, data).Some? ==> BigEndian(Accepts(v, data).value) !in v.seen
  {
  }

  /** Two acceptances of one sequence number are whole rounds of the 16-bit epoch apart. */
  ghost predicate RoundsApart(acc: seq<seq<byte>>, turns: seq<nat>)
    requires |acc| == |turns|
  {
    forall i, j :: 0 <= i < j < |acc| && acc[i] == acc[j] ==>
      turns[i] < turns[j] && (turns[j] - turns[i]) % 65536 == 0
  }

  /** However records are replayed, reordered and forged, and across any number of changes of
      keys, no record is accepted twice under the same keys, nor any sequence number again before
      the epoch has gone all the way round. */
  lemma {:induction false} AcceptedOnce(v: View, run: seq<Event>, turn: nat)
    requires v.epoch < 65536
    ensures RoundsApart(Accepted(v, run), Turns(v, run, turn))
    decreases |run|
  {
    hide Accepts, After;
    if run != [] {
      match run[0]
      case NewKeys(keys) =>
        AcceptedOnce(NextEpoch(v, keys), run[1..], turn + 1);
      case Packet(data) =>
        var s := Accepts(v, data);
        KeepsEpoch(v, s);
        AcceptedOnce(After(v, s), run[1..], turn);
        if s.Some? {
          AcceptedIsPast(v, s.value);
          AcceptsOwnEpoch(v, data);
          PastStaysPast(After(v, s), run[1..], turn, s.value);
          EpochsAreTurns(After(v, s), run[1..], turn);
          RoundsMore(v.epoch, s.value, turn, Accepted(After(v, s), run[1..]), Turns(After(v, s), run[1..], turn));
        }
    }
  }

  lemma RoundsMore(epoch: nat, s: seq<byte>, turn: nat, acc: seq<seq<byte>>, turns: seq<nat>)
    requires |acc| == |turns| && RoundsApart(acc, turns) && TurnsAgree(epoch, acc, turns, turn)
    requires |s| == 8 && epoch < 65536 && BigEndian(s[..2]) == epoch
    requires forall i :: 0 <= i < |acc| ==> acc[i] != s || turns[i] != turn
    ensures RoundsApart([s] + acc, [turn] + turns)
  {
    forall j | 0 <= j < |acc| && acc[j] == s
      ensures turn < turns[j] && (turns[j] - turn) % 65536 == 0
    {
      assert EpochOfTurn(epoch, acc[j], turns[j] - turn);
      SameRest(epoch, turns[j] - turn);
    }
  }

  lemma SameRest(epoch: nat, k: nat)
    requires epoch < 65536 && epoch == (epoch + k) % 65536
    ensures k % 65536 == 0
  {
  }

  lemma KeepsEpoch(v: View, s: Option<seq<byte>>)
    ensures After(v, s).epoch == v.epoch
  {
  }

  lemma AcceptedIsPast(v: View, s: seq<byte>)
    ensures BigEndian(s) in After(v, Some(s)).seen
  {
  }

  /** A packet that `v`'s keys authenticate as the record with sequence number `s`. */
  ghost predicate Authentic(v: View, data: seq<byte>, s: seq<byte>) {
    var rec := ParseRecord(data);
    && rec.Some? && rec.value.sequence == s && VersionOk(v.keys, rec.value.version)
    && BigEndian(s[..2]) == v.epoch
    && var plain := Decrypted(v, rec.value); plain.Some? && |plain.value| <= MAX_PLAIN_LENGTH
  }

  ghost predicate InWindow(s: nat, max: nat) {
    max < s + WINDOW
  }

  /** The window refuses nothing else: a fresh authentic record that arrives before any number
      a whole window above it has been accepted, is accepted when it arrives or was before. */
  lemma {:induction false} InWindowAccepted(v: View, run: seq<Event>, k: nat, s: seq<byte>)
    requires !v.closed && |s| == 8 && BigEndian(s) !in v.seen && InWindow(BigEndian(s), v.max)
    requires k < |run| && run[k].Packet? && Authentic(v, run[k].data, s)
    requires forall j :: 0 <= j < k ==> run[j].Packet?
    requires forall j :: 0 <= j < k && ParseRecord(run[j].data).Some? ==>
      InWindow(BigEndian(s), BigEndian(ParseRecord(run[j].data).value.sequence))
    ensures exists a :: a in Accepted(v, run) && BigEndian(a) == BigEndian(s)
    decreases |run|
  {
    hide ParseRecord, Accepts, After, Authentic, BigEndian;
    var data := run[0].data;
    var next, rest := After(v, Accepts(v, data)), run[1..];
    assert forall x :: x in Accepted(next, rest) ==> x in Accepted(v, run);
    if k == 0 {
      FreshAccepted(v, data, s);
      assert Accepted(v, run)[0] == s;
    } else if Accepts(v, data).Some? && BigEndian(Accepts(v, data).value) == BigEndian(s) {
      assert Accepted(v, run)[0] == Accepts(v, data).value;
    } else {
      StaysFresh(v, data, run[k].data, s);
      assert rest[k - 1] == run[k] && forall j :: 0 <= j < k - 1 ==> rest[j] == run[j + 1];
      InWindowAccepted(next, rest, k - 1, s);
    }
  }

  lemma FreshAccepted(v: View, data: seq<byte>, s: seq<byte>)
    requires !v.closed && |s| == 8 && BigEndian(s) !in v.seen && InWindow(BigEndian(s), v.max)
    requires Authentic(v, data, s)
    ensures Accepts(v, data) == Some(s)
  {
  }

  /** Another record, not a whole window above `s`, does not make it stale. */
  lemma StaysFresh(v: View, data: seq<byte>, later: seq<byte>, s: seq<byte>)
    requires !v.closed && |s| == 8 && BigEndian(s) !in v.seen && InWindow(BigEndian(s), v.max)
    requires Accepts(v, data).Some? ==> BigEndian(Accepts(v, data).value) != BigEndian(s)
    requires ParseRecord(data).Some? ==> InWindow(BigEndian(s), BigEndian(ParseRecord(data).value.sequence))
    ensures var next := After(v, Accepts(v, data));
            && !next.closed && BigEndian(s) !in next.seen && InWindow(BigEndian(s), next.max)
            && (Authentic(v, later, s) ==> Authentic(next, later, s))
  {
    hide BigEndian;
  }
}
