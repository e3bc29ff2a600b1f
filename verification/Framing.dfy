/** Length-prefixed, checksummed record frames, and reading a file of them back. */
module Framing {
  import opened Entries
  import opened Crc

  const RECORD_MAGIC: Octets := [0x46, 0x51, 0x52, 0x31]
  const RECORD_FORMAT_VERSION: bv8 := 2
  const FRAME_HEADER_LEN: nat := 13
  const MAX_RECORD_PAYLOAD_LEN: nat := 67108864

  // ---- little-endian fields ----

  /** The byte with value `n`, counting up. */
  function ToByte(n: nat): bv8
    requires n < 256
  {
    if n == 0 then 0 else ToByte(n - 1) + 1
  }

  function FromByte(b: bv8): nat { b as nat }

  lemma NextByte(b: bv8)
    requires b != 255
    ensures FromByte(b + 1) == FromByte(b) + 1
  {
  }

  lemma {:induction false} ByteBack(n: nat)
    requires n < 256
    ensures FromByte(ToByte(n)) == n
  {
    if n > 0 {
      ByteBack(n - 1);
      assert ToByte(n - 1) != 255;
      NextByte(ToByte(n - 1));
    }
  }

  function LenBytes(n: nat): (s: Octets)
    requires n < 0x1_0000_0000
    ensures |s| == 4
  {
    [ToByte(n % 256), ToByte(n / 256 % 256), ToByte(n / 65536 % 256), ToByte(n / 16777216)]
  }

  function ReadLen(s: Octets): nat
    requires |s| == 4
  {
    FromByte(s[0]) + 256 * FromByte(s[1]) + 65536 * FromByte(s[2]) + 16777216 * FromByte(s[3])
  }

  lemma LenBack(n: nat)
    requires n < 0x1_0000_0000
    ensures ReadLen(LenBytes(n)) == n
  {
    hide ToByte, FromByte;
    ByteBack(n % 256);
    ByteBack(n / 256 % 256);
    ByteBack(n / 65536 % 256);
    ByteBack(n / 16777216);
    Digits(n);
  }

  lemma Digits(n: nat)
    ensures n == n % 256 + 256 * (n / 256 % 256) + 65536 * (n / 65536 % 256) + 16777216 * (n / 16777216)
  {
    assert n / 256 / 256 == n / 65536;
    assert n / 65536 / 256 == n / 16777216;
  }

  function CrcBytes(x: bv32): (s: Octets)
    ensures |s| == 4
  {
    [(x & 0xFF) as bv8, ((x >> 8) & 0xFF) as bv8, ((x >> 16) & 0xFF) as bv8, ((x >> 24) & 0xFF) as bv8]
  }

  function ReadCrc(s: Octets): bv32
    requires |s| == 4
  {
    (s[0] as bv32) | ((s[1] as bv32) << 8) | ((s[2] as bv32) << 16) | ((s[3] as bv32) << 24)
  }

  lemma CrcBack(x: bv32)
    ensures ReadCrc(CrcBytes(x)) == x
  {
  }

  // ---- one frame ----

  function Header(n: nat, crc: bv32): (s: Octets)
    requires n < 0x1_0000_0000
    ensures |s| == FRAME_HEADER_LEN
  {
    RECORD_MAGIC + [RECORD_FORMAT_VERSION] + LenBytes(n) + CrcBytes(crc)
  }

  function Frame(payload: Octets): (s: Octets)
    requires |payload| <= MAX_RECORD_PAYLOAD_LEN
    ensures |s| == FRAME_HEADER_LEN + |payload|
  {
    Header(|payload|, Crc32(payload)) + payload
  }

  /** Wrap a payload, unless it is larger than any reader accepts. */
  method EncodeFrame(payload: Octets) returns (r: Option<Octets>)
    ensures r.Some? <==> |payload| <= MAX_RECORD_PAYLOAD_LEN
    ensures r.Some? ==> r.value == Frame(payload)
  {
    hide Crc32, LenBytes, CrcBytes;
    if |payload| > MAX_RECORD_PAYLOAD_LEN { return None; }
    var frame := RECORD_MAGIC;
    frame := frame + [RECORD_FORMAT_VERSION];
    frame := frame + LenBytes(|payload|);
    var crc := Crc32Parts([payload]);
    OnePart(payload);
    frame := frame + CrcBytes(crc);
    frame := frame + payload;
    return Some(frame);
  }

  lemma OnePart(payload: Octets)
    ensures Joined([payload]) == payload
  {
    assert [payload][..0] == [];
  }

  datatype Decoded = Intact(payload: Octets) | Short | BadMagic | BadVersion | BadLength | BadChecksum

  /** Check a slice that must be exactly one frame. */
  function DecodeFrame(bytes: Octets): Decoded {
    if |bytes| < FRAME_HEADER_LEN then Short
    else if bytes[0..4] != RECORD_MAGIC then BadMagic
    else if bytes[4] != RECORD_FORMAT_VERSION then BadVersion
    else if |bytes| != FRAME_HEADER_LEN + ReadLen(bytes[5..9]) then BadLength
    else if Crc32(bytes[FRAME_HEADER_LEN..]) != ReadCrc(bytes[9..13]) then BadChecksum
    else Intact(bytes[FRAME_HEADER_LEN..])
  }

  datatype Outcome = Whole(payload: Octets, consumed: nat) | Torn | Corrupt | UnsupportedVersion(found: bv8)

  /** Read the frame that what is left of a file starts with. */
  function ReadFrame(rest: Octets): Outcome {
    if |rest| < FRAME_HEADER_LEN then Torn
    else if rest[0..4] != RECORD_MAGIC then Corrupt
    else if rest[4] != RECORD_FORMAT_VERSION then UnsupportedVersion(rest[4])
    else
      var n, crc := ReadLen(rest[5..9]), ReadCrc(rest[9..13]);
      if n > MAX_RECORD_PAYLOAD_LEN then Corrupt
      else if n > |rest| - FRAME_HEADER_LEN then Torn
      else
        var payload := rest[FRAME_HEADER_LEN..FRAME_HEADER_LEN + n];
        if Crc32(payload) != crc then Corrupt else Whole(payload, FRAME_HEADER_LEN + n)
  }

  lemma HeaderFields(n: nat, crc: bv32, rest: Octets)
    requires n < 0x1_0000_0000
    ensures var s := Header(n, crc) + rest;
            && s[0..4] == RECORD_MAGIC && s[4] == RECORD_FORMAT_VERSION
            && ReadLen(s[5..9]) == n && ReadCrc(s[9..13]) == crc && s[FRAME_HEADER_LEN..] == rest
  {
    hide LenBytes, CrcBytes, ReadLen, ReadCrc;
    LenBack(n);
    CrcBack(crc);
    var s := Header(n, crc) + rest;
    assert s[5..9] == LenBytes(n);
    assert s[9..13] == CrcBytes(crc);
  }

  /** What the reader makes of a well-formed header and whatever follows it. */
  lemma HeaderReads(n: nat, crc: bv32, rest: Octets)
    requires n <= MAX_RECORD_PAYLOAD_LEN
    ensures ReadFrame(Header(n, crc) + rest) ==
            if n > |rest| then Torn
            else if Crc32(rest[..n]) != crc then Corrupt
            else Whole(rest[..n], FRAME_HEADER_LEN + n)
  {
    hide Header, ReadLen, ReadCrc, Crc32;
    HeaderFields(n, crc, rest);
    var s := Header(n, crc) + rest;
    if n <= |rest| {
      assert s[FRAME_HEADER_LEN..FRAME_HEADER_LEN + n] == s[FRAME_HEADER_LEN..][..n];
    }
  }

  /** A written frame reads back, whatever follows it, and decodes on its own. */
  lemma RoundTrip(payload: Octets, rest: Octets)
    requires |payload| <= MAX_RECORD_PAYLOAD_LEN
    ensures ReadFrame(Frame(payload) + rest) == Whole(payload, |Frame(payload)|)
    ensures DecodeFrame(Frame(payload)) == Intact(payload)
  {
    hide Header, ReadLen, ReadCrc, Crc32, ReadFrame;
    var head := Header(|payload|, Crc32(payload));
    assert Frame(payload) + rest == head + (payload + rest);
    assert (payload + rest)[..|payload|] == payload;
    HeaderReads(|payload|, Crc32(payload), payload + rest);
    HeaderFields(|payload|, Crc32(payload), payload);
  }

  /** A frame cut anywhere is torn, never corrupt. */
  lemma CutIsTorn(payload: Octets, cut: nat)
    requires |payload| <= MAX_RECORD_PAYLOAD_LEN && cut < |Frame(payload)|
    ensures ReadFrame(Frame(payload)[..cut]) == Torn
  {
    if cut >= FRAME_HEADER_LEN {
      hide Header, ReadFrame, Crc32;
      var head := Header(|payload|, Crc32(payload));
      assert Frame(payload)[..cut] == head + payload[..cut - FRAME_HEADER_LEN];
      HeaderReads(|payload|, Crc32(payload), payload[..cut - FRAME_HEADER_LEN]);
    }
  }

  ghost predicate OneByteOff(a: Octets, b: Octets, i: nat) {
    && |a| == |b| && i < |a| && a[i] != b[i]
    && forall j :: 0 <= j < |a| && j != i ==> a[j] == b[j]
  }

  /** A frame that is fully present with one payload byte damaged is always reported. */
  lemma DamageIsReported(payload: Octets, damaged: Octets, i: nat, rest: Octets)
    requires |payload| <= MAX_RECORD_PAYLOAD_LEN && OneByteOff(payload, damaged, i)
    ensures ReadFrame(Header(|payload|, Crc32(payload)) + damaged + rest) == Corrupt
    ensures DecodeFrame(Header(|payload|, Crc32(payload)) + damaged) == BadChecksum
  {
    hide Header, ReadLen, ReadCrc, Crc32, ReadFrame;
    OneByteShows(payload, damaged, i);
    var head := Header(|payload|, Crc32(payload));
    assert head + damaged + rest == head + (damaged + rest);
    assert (damaged + rest)[..|payload|] == damaged;
    HeaderReads(|payload|, Crc32(payload), damaged + rest);
    HeaderFields(|payload|, Crc32(payload), damaged);
  }

  // ---- a file of frames ----

  datatype Tail = Clean | Truncated(offset: nat)

  datatype Found = Found(offset: nat, payload: Octets)

  datatype ReadResult = Read(records: seq<Found>, tail: Tail) | Refused(offset: nat)

  function Prepend(records: seq<Found>, r: ReadResult): ReadResult {
    if r.Read? then Read(records + r.records, r.tail) else r
  }

  function ReadFrom(rest: Octets, offset: nat): ReadResult
    decreases |rest|
  {
    if rest == [] then Read([], Clean)
    else
      match ReadFrame(rest)
      case Whole(payload, consumed) =>
        if 0 < consumed <= |rest| then
          Prepend([Found(offset, payload)], ReadFrom(rest[consumed..], offset + consumed))
        else Refused(offset)
      case Torn => Read([], Truncated(offset))
      case _ => Refused(offset)
  }

  lemma FrameFits(rest: Octets)
    ensures ReadFrame(rest).Whole? ==> 0 < ReadFrame(rest).consumed <= |rest|
  {
    hide Crc32, ReadLen, ReadCrc;
  }

  /** Replay a file from the start. */
  method ReadAll(file: Octets) returns (r: ReadResult)
    ensures r == ReadFrom(file, 0)
    ensures exists ps, rest :: Classified(file, ps, rest, r)
  {
    hide ReadFrame, Classified;
    ghost var ps, rest := EveryFile(file);
    var records: seq<Found> := [];
    var offset := 0;
    assert file[0..] == file;
    Prepended([], [], ReadFrom(file, 0));
    while offset < |file|
      invariant offset <= |file|
      invariant ReadFrom(file, 0) == Prepend(records, ReadFrom(file[offset..], offset))
      decreases |file| - offset
    {
      FrameFits(file[offset..]);
      var outcome := ReadFrame(file[offset..]);
      match outcome {
        case Whole(payload, consumed) =>
          assert file[offset..][consumed..] == file[offset + consumed..];
          Prepended(records, [Found(offset, payload)], ReadFrom(file[offset + consumed..], offset + consumed));
          records := records + [Found(offset, payload)];
          offset := offset + consumed;
        case Torn =>
          return Read(records, Truncated(offset));
        case _ =>
          return Refused(offset);
      }
    }
    return Read(records, Clean);
  }

  lemma Prepended(a: seq<Found>, b: seq<Found>, r: ReadResult)
    ensures Prepend(a, Prepend(b, r)) == Prepend(a + b, r)
    ensures Prepend([], r) == r
  {
    if r.Read? { assert a + (b + r.records) == (a + b) + r.records && [] + r.records == r.records; }
  }

  ghost predicate Encodable(ps: seq<Octets>) {
    forall i :: 0 <= i < |ps| ==> |ps[i]| <= MAX_RECORD_PAYLOAD_LEN
  }

  /** The file a sequence of appends leaves. */
  function File(ps: seq<Octets>): Octets
    requires Encodable(ps)
  {
    if ps == [] then [] else Frame(ps[0]) + File(ps[1..])
  }

  function Listed(ps: seq<Octets>, offset: nat): seq<Found>
    requires Encodable(ps)
  {
    if ps == [] then [] else [Found(offset, ps[0])] + Listed(ps[1..], offset + |Frame(ps[0])|)
  }

  /** How many frames lie wholly before a cut. */
  function WholeBefore(ps: seq<Octets>, cut: nat): (k: nat)
    requires Encodable(ps)
    ensures k <= |ps|
  {
    if ps == [] || |Frame(ps[0])| > cut then 0 else 1 + WholeBefore(ps[1..], cut - |Frame(ps[0])|)
  }

  /** Frames in front of anything read back, and the reader goes on behind them. */
  lemma {:induction false} ReadsPast(ps: seq<Octets>, rest: Octets, offset: nat)
    requires Encodable(ps)
    ensures ReadFrom(File(ps) + rest, offset) == Prepend(Listed(ps, offset), ReadFrom(rest, offset + |File(ps)|))
    decreases |ps|
  {
    hide ReadFrame, ReadFrom, Frame, Prepend;
    if ps == [] {
      assert File(ps) + rest == rest;
      Prepended([], [], ReadFrom(rest, offset));
    } else {
      var head, more := Frame(ps[0]), File(ps[1..]) + rest;
      assert File(ps) + rest == head + more;
      RoundTrip(ps[0], more);
      ReadStep(head, more, ps[0], offset);
      ReadsPast(ps[1..], rest, offset + |head|);
      Prepended([Found(offset, ps[0])], Listed(ps[1..], offset + |head|), ReadFrom(rest, offset + |File(ps)|));
    }
  }

  lemma ReadStep(head: Octets, more: Octets, payload: Octets, offset: nat)
    requires head != [] && ReadFrame(head + more) == Whole(payload, |head|)
    ensures ReadFrom(head + more, offset) == Prepend([Found(offset, payload)], ReadFrom(more, offset + |head|))
  {
    hide ReadFrame;
    assert (head + more)[|head|..] == more;
  }

  /** Cut the file anywhere: the reader returns exactly the payloads whose frames lie wholly
      before the cut, is clean on a frame boundary, reports the start of the torn frame
      otherwise, and never reports corruption. */
  lemma TruncationExact(ps: seq<Octets>, cut: nat)
    requires Encodable(ps) && cut <= |File(ps)|
    ensures var k := WholeBefore(ps, cut);
            var whole := |File(ps[..k])|;
            && whole <= cut
            && ReadFrom(File(ps)[..cut], 0) ==
               Read(Listed(ps[..k], 0), if whole == cut then Clean else Truncated(whole))
  {
    hide ReadFrame, Frame, WholeBefore, ReadFrom;
    var k := WholeBefore(ps, cut);
    Boundary(ps, cut);
    var whole := |File(ps[..k])|;
    FileSplit(ps, k);
    var left := File(ps[k..])[..cut - whole];
    assert File(ps)[..cut] == File(ps[..k]) + left;
    ReadsPast(ps[..k], left, 0);
    LeftOver(ps[k..], cut - whole, whole);
    assert Listed(ps[..k], 0) + [] == Listed(ps[..k], 0);
  }

  /** What is left after the whole frames is nothing, or a cut frame. */
  lemma LeftOver(ps: seq<Octets>, cut: nat, offset: nat)
    requires Encodable(ps) && cut <= |File(ps)| && (ps != [] ==> cut < |Frame(ps[0])|)
    ensures ReadFrom(File(ps)[..cut], offset) == Read([], if cut == 0 then Clean else Truncated(offset))
  {
    hide ReadFrame, Frame;
    if cut > 0 {
      assert File(ps)[..cut] == Frame(ps[0])[..cut];
      CutIsTorn(ps[0], cut);
    }
  }

  lemma {:induction false} Boundary(ps: seq<Octets>, cut: nat)
    requires Encodable(ps)
    ensures var k := WholeBefore(ps, cut);
            && |File(ps[..k])| <= cut
            && (k < |ps| ==> cut - |File(ps[..k])| < |Frame(ps[k])|)
    decreases |ps|
  {
    hide Frame;
    if ps != [] && |Frame(ps[0])| <= cut {
      var k := WholeBefore(ps[1..], cut - |Frame(ps[0])|);
      Boundary(ps[1..], cut - |Frame(ps[0])|);
      assert ps[..k + 1][1..] == ps[1..][..k];
    }
  }

  lemma {:induction false} FileSplit(ps: seq<Octets>, k: nat)
    requires Encodable(ps) && k <= |ps|
    ensures File(ps) == File(ps[..k]) + File(ps[k..])
    decreases k
  {
    hide Frame;
    if k == 0 {
      assert ps[0..] == ps;
      assert [] + File(ps) == File(ps);
    } else {
      FileSplit(ps[1..], k - 1);
      assert ps[..k][1..] == ps[1..][..k - 1] && ps[1..][k - 1..] == ps[k..];
      assert Frame(ps[0]) + (File(ps[1..][..k - 1]) + File(ps[k..])) == File(ps[..k]) + File(ps[k..]);
    }
  }

  /** One damaged payload byte in any frame stops the reader at that frame. */
  lemma DamageStopsReader(before: seq<Octets>, payload: Octets, damaged: Octets, i: nat, after: Octets)
    requires Encodable(before) && |payload| <= MAX_RECORD_PAYLOAD_LEN && OneByteOff(payload, damaged, i)
    ensures ReadFrom(File(before) + (Header(|payload|, Crc32(payload)) + damaged + after), 0) == Refused(|File(before)|)
  {
    hide ReadFrame, Header, Crc32, File;
    var rest := Header(|payload|, Crc32(payload)) + damaged + after;
    DamageIsReported(payload, damaged, i, after);
    ReadsPast(before, rest, 0);
  }

  // ---- every file, byte for byte ----

  function Declared(rest: Octets): nat
    requires |rest| >= FRAME_HEADER_LEN
  {
    rest[5] as nat + 256 * rest[6] as nat + 65536 * rest[7] as nat + 16777216 * rest[8] as nat
  }

  predicate Recognised(rest: Octets)
    requires |rest| >= FRAME_HEADER_LEN
  {
    rest[0] == 0x46 && rest[1] == 0x51 && rest[2] == 0x52 && rest[3] == 0x31 && rest[4] == 2
  }

  /** The only endings a crash may leave: part of a header, or a header within the limit that
      promises more bytes than there are. */
  predicate Unfinished(rest: Octets) {
    || |rest| < FRAME_HEADER_LEN
    || (Recognised(rest) && |rest| - FRAME_HEADER_LEN < Declared(rest) <= MAX_RECORD_PAYLOAD_LEN)
  }

  ghost predicate Starts(rest: Octets, payload: Octets) {
    |payload| <= MAX_RECORD_PAYLOAD_LEN && Frame(payload) <= rest
  }

  /** Every field of a frame, byte by byte, least significant first. */
  lemma FieldOrder(payload: Octets)
    requires |payload| <= MAX_RECORD_PAYLOAD_LEN
    ensures var s, n, crc := Frame(payload), |payload|, Crc32(payload);
            && Recognised(s)
            && s[5] as nat == n % 256 && s[6] as nat == n / 256 % 256
            && s[7] as nat == n / 65536 % 256 && s[8] as nat == n / 16777216
            && s[9] == (crc & 0xFF) as bv8 && s[10] == ((crc >> 8) & 0xFF) as bv8
            && s[11] == ((crc >> 16) & 0xFF) as bv8 && s[12] == ((crc >> 24) & 0xFF) as bv8
            && s[13..] == payload
  {
    hide ToByte, Crc32;
    var n := |payload|;
    ByteBack(n % 256);
    ByteBack(n / 256 % 256);
    ByteBack(n / 65536 % 256);
    ByteBack(n / 16777216);
  }

  lemma SameByte(a: bv8, b: bv8)
    ensures FromByte(a) == FromByte(b) ==> a == b
  {
  }

  lemma ByteForth(b: bv8)
    ensures FromByte(b) < 256 && ToByte(FromByte(b)) == b
  {
    hide ToByte;
    ByteBack(FromByte(b));
    SameByte(ToByte(FromByte(b)), b);
  }

  lemma LenForth(s: Octets)
    requires |s| == 4
    ensures ReadLen(s) < 0x1_0000_0000 && LenBytes(ReadLen(s)) == s
  {
    hide ToByte, FromByte;
    ByteForth(s[0]);
    ByteForth(s[1]);
    ByteForth(s[2]);
    ByteForth(s[3]);
    Places(FromByte(s[0]), FromByte(s[1]), FromByte(s[2]), FromByte(s[3]));
  }

  lemma Places(a: nat, b: nat, c: nat, d: nat)
    requires a < 256 && b < 256 && c < 256 && d < 256
    ensures var n := a + 256 * b + 65536 * c + 16777216 * d;
            n % 256 == a && n / 256 % 256 == b && n / 65536 % 256 == c && n / 16777216 == d
  {
    var n := a + 256 * b + 65536 * c + 16777216 * d;
    assert n / 256 == b + 256 * c + 65536 * d;
    assert n / 65536 == c + 256 * d;
  }

  lemma CrcForth(s: Octets)
    requires |s| == 4
    ensures CrcBytes(ReadCrc(s)) == s
  {
    CrcOctets(s[0], s[1], s[2], s[3]);
  }

  lemma CrcOctets(a: bv8, b: bv8, c: bv8, d: bv8)
    ensures var x := (a as bv32) | ((b as bv32) << 8) | ((c as bv32) << 16) | ((d as bv32) << 24);
            && (x & 0xFF) as bv8 == a && ((x >> 8) & 0xFF) as bv8 == b
            && ((x >> 16) & 0xFF) as bv8 == c && ((x >> 24) & 0xFF) as bv8 == d
  {
  }

  /** Any bytes with the magic and the version in place are some header and what follows it. */
  lemma HeaderOf(rest: Octets)
    requires |rest| >= FRAME_HEADER_LEN && Recognised(rest)
    ensures var n, crc := ReadLen(rest[5..9]), ReadCrc(rest[9..13]);
            n == Declared(rest) && n < 0x1_0000_0000 && rest == Header(n, crc) + rest[FRAME_HEADER_LEN..]
  {
    hide LenBytes, CrcBytes, ReadCrc;
    LenForth(rest[5..9]);
    CrcForth(rest[9..13]);
    assert rest[..4] == RECORD_MAGIC && rest[4..5] == [RECORD_FORMAT_VERSION];
    assert rest == rest[..4] + rest[4..5] + rest[5..9] + rest[9..13] + rest[FRAME_HEADER_LEN..];
  }

  /** The reader accepts exactly what the writer writes. */
  lemma WholeExact(rest: Octets, payload: Octets, consumed: nat)
    ensures ReadFrame(rest) == Whole(payload, consumed) <==>
            Starts(rest, payload) && consumed == |Frame(payload)|
  {
    hide Header, ReadLen, ReadCrc, Crc32, ReadFrame, Declared, Recognised;
    if Starts(rest, payload) {
      var more := rest[|Frame(payload)|..];
      assert rest == Frame(payload) + more;
      RoundTrip(payload, more);
    }
    if ReadFrame(rest) == Whole(payload, consumed) {
      WholeStarts(rest, payload, consumed);
    }
  }

  lemma WholeStarts(rest: Octets, payload: Octets, consumed: nat)
    requires ReadFrame(rest) == Whole(payload, consumed)
    ensures Starts(rest, payload) && consumed == |Frame(payload)|
  {
    hide Header, ReadLen, ReadCrc, Crc32, Declared;
    assert |rest| >= FRAME_HEADER_LEN && rest[0..4] == RECORD_MAGIC && rest[4] == RECORD_FORMAT_VERSION;
    MagicBytes(rest);
    HeaderOf(rest);
    var n := |payload|;
    assert rest == Header(n, Crc32(payload)) + rest[FRAME_HEADER_LEN..];
    assert rest[FRAME_HEADER_LEN..][..n] == payload;
    assert rest[..FRAME_HEADER_LEN + n] == Frame(payload);
  }

  lemma MagicBytes(rest: Octets)
    requires |rest| >= FRAME_HEADER_LEN
    ensures Recognised(rest) <==> rest[0..4] == RECORD_MAGIC && rest[4] == RECORD_FORMAT_VERSION
  {
    if Recognised(rest) { assert rest[0..4] == RECORD_MAGIC; }
    if rest[0..4] == RECORD_MAGIC {
      assert rest[0] == rest[0..4][0] && rest[1] == rest[0..4][1];
      assert rest[2] == rest[0..4][2] && rest[3] == rest[0..4][3];
    }
  }

  lemma TornExact(rest: Octets)
    ensures ReadFrame(rest) == Torn <==> Unfinished(rest)
  {
    hide Header, ReadLen, ReadCrc, Crc32, Recognised, Declared;
    if |rest| >= FRAME_HEADER_LEN {
      MagicBytes(rest);
      if Recognised(rest) { HeaderOf(rest); }
    }
  }

  /** How the reader classifies a file: the frames it starts with, then nothing, a torn record, or damage. */
  ghost predicate Classified(file: Octets, ps: seq<Octets>, rest: Octets, r: ReadResult) {
    && Encodable(ps) && file == File(ps) + rest
    && (forall p :: !Starts(rest, p))
    && (rest == [] ==> r == Read(Listed(ps, 0), Clean))
    && (rest != [] && Unfinished(rest) ==> r == Read(Listed(ps, 0), Truncated(|File(ps)|)))
    && (rest != [] && !Unfinished(rest) ==> r == Refused(|File(ps)|))
  }

  /** The frames a file starts with, as many as there are. */
  lemma {:induction false} Frames(file: Octets) returns (ps: seq<Octets>, rest: Octets)
    ensures Encodable(ps) && file == File(ps) + rest && forall p :: !Starts(rest, p)
    decreases |file|
  {
    hide Frame;
    if exists p :: Starts(file, p) {
      var p :| Starts(file, p);
      var more := file[|Frame(p)|..];
      var qs, left := Frames(more);
      ps, rest := [p] + qs, left;
      assert ps[1..] == qs;
      assert file == Frame(p) + more;
      assert Frame(p) + (File(qs) + rest) == (Frame(p) + File(qs)) + rest;
    } else {
      ps, rest := [], file;
      assert [] + file == file;
    }
  }

  /** What the reader makes of an ending no frame starts. */
  lemma EndingReads(rest: Octets, offset: nat)
    requires rest != [] && forall p :: !Starts(rest, p)
    ensures ReadFrom(rest, offset) == if Unfinished(rest) then Read([], Truncated(offset)) else Refused(offset)
  {
    hide ReadFrame, Starts, Unfinished;
    TornExact(rest);
    var outcome := ReadFrame(rest);
    if outcome.Whole? { WholeExact(rest, outcome.payload, outcome.consumed); }
  }

  /** Every byte string is classified. */
  lemma EveryFile(file: Octets) returns (ps: seq<Octets>, rest: Octets)
    ensures Classified(file, ps, rest, ReadFrom(file, 0))
  {
    hide ReadFrom, Starts, Unfinished, Frame;
    ps, rest := Frames(file);
    ReadsPast(ps, rest, 0);
    if rest == [] {
      ReadsNothing(|File(ps)|);
    } else {
      EndingReads(rest, |File(ps)|);
    }
    assert Listed(ps, 0) + [] == Listed(ps, 0);
  }

  lemma ReadsNothing(offset: nat)
    ensures ReadFrom([], offset) == Read([], Clean)
  {
  }

  /** A full header with the wrong magic, another version, or a length over the limit is damage
      wherever it stands: the file is refused there and never taken for a torn tail. */
  lemma BadHeaderRefused(before: seq<Octets>, rest: Octets)
    requires Encodable(before) && |rest| >= FRAME_HEADER_LEN
    requires !Recognised(rest) || Declared(rest) > MAX_RECORD_PAYLOAD_LEN
    ensures ReadFrom(File(before) + rest, 0) == Refused(|File(before)|)
  {
    hide ReadFrame, ReadFrom, Starts, Frame, File, Recognised, Declared;
    NoFrame(rest);
    EndingReads(rest, |File(before)|);
    ReadsPast(before, rest, 0);
  }

  lemma NoFrame(rest: Octets)
    requires |rest| >= FRAME_HEADER_LEN
    requires !Recognised(rest) || Declared(rest) > MAX_RECORD_PAYLOAD_LEN
    ensures forall p :: !Starts(rest, p)
  {
    forall p ensures !Starts(rest, p) {
      if Starts(rest, p) { FrameHeader(p, rest); }
    }
  }

  lemma FrameHeader(payload: Octets, rest: Octets)
    requires Starts(rest, payload)
    ensures |rest| >= FRAME_HEADER_LEN && Recognised(rest) && Declared(rest) == |payload|
  {
    hide Frame;
    FieldOrder(payload);
    Digits(|payload|);
    var s := Frame(payload);
    assert forall k :: 0 <= k < FRAME_HEADER_LEN ==> rest[k] == s[k];
  }
}
