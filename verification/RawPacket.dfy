/** The hand-written codec of raw packet frames. All numbers are big-endian; strings are their bytes. */
module RawPacket {
  import opened DataChecksum

  const MIN_LENGTH := 29

  type UInt64 = x: nat | x < 0x1_0000_0000_0000_0000

  /** The timestamp is the 64-bit pattern of its Unix nanoseconds. */
  datatype Frame = Frame(
    frameID: UInt64, data: Bytes, pathID: Bytes, protocolHint: Bytes, preserveOrder: bool,
    timestamp: UInt64, checksum: bv32)

  datatype Outcome =
    | Accepted
    | TooShort
    | MissingData
    | MissingPathLength
    | MissingPath
    | MissingHintLength
    | MissingHint
    | MissingFlag
    | MissingTimestamp
    | MissingChecksum
    | ChecksumMismatch

  // ---------------------------------------------------------------------------
  // Numbers

  function Power256(n: nat): (p: nat)
    ensures p > 0
  {
    if n == 0 then 1 else 256 * Power256(n - 1)
  }

  lemma NibbleValue(v: nat)
    requires v < 16
    ensures (v as bv8) as int == v && v as bv8 < 16
  {
  }

  lemma JoinNibbles(high: bv8, low: bv8)
    requires high < 16 && low < 16
    ensures ((high << 4) | low) as int == 16 * (high as int) + low as int
  {
  }

  lemma ByteOfValue(b: Byte)
    ensures (b as int) as bv8 == b
  {
  }

  lemma ByteValue(v: nat)
    requires v < 256
    ensures (v as bv8) as int == v
  {
    var high, low := (v / 16) as bv8, (v % 16) as bv8;
    NibbleValue(v / 16);
    NibbleValue(v % 16);
    JoinNibbles(high, low);
    ByteOfValue((high << 4) | low);
  }

  function Value(b: Byte): (v: nat)
    ensures v < 256
  {
    b as int
  }

  function LowByte(x: nat): (b: Byte)
    ensures Value(b) == x % 256
  {
    ByteValue(x % 256);
    (x % 256) as Byte
  }

  /** x shifted right by 8 bits, k times. */
  function ShiftRight(x: nat, k: nat): nat
  {
    if k == 0 then x else ShiftRight(x / 256, k - 1)
  }

  /** The low n bytes of x, the highest first. */
  function Put(n: nat, x: nat): (r: Bytes)
    ensures |r| == n
  {
    if n == 0 then [] else Put(n - 1, x / 256) + [LowByte(x)]
  }

  function Get(s: Bytes): (x: nat)
    ensures x < Power256(|s|)
  {
    if s == [] then 0 else Get(s[..|s| - 1]) * 256 + Value(s[|s| - 1])
  }

  lemma {:induction false} PutAt(n: nat, x: nat, i: nat)
    requires i < n
    ensures Put(n, x)[i] == LowByte(ShiftRight(x, n - 1 - i))
  {
    if i < n - 1 {
      PutAt(n - 1, x / 256, i);
    }
  }

  /** A number that fits the width is read back. */
  lemma {:induction false} GetPut(n: nat, x: nat)
    requires x < Power256(n)
    ensures Get(Put(n, x)) == x
  {
    hide LowByte;
    hide Value;
    if n > 0 {
      assert Put(n, x)[..n - 1] == Put(n - 1, x / 256);
      GetPut(n - 1, x / 256);
    }
  }

  lemma ValueIsInjective(a: Byte, b: Byte)
    requires Value(a) == Value(b)
    ensures a == b
  {
    ByteOfValue(a);
    ByteOfValue(b);
  }

  lemma LastDigit(high: nat, low: nat)
    requires low < 256
    ensures (high * 256 + low) / 256 == high && (high * 256 + low) % 256 == low
  {
  }

  lemma PutStep(n: nat, high: nat, low: Byte)
    ensures Put(n + 1, high * 256 + Value(low)) == Put(n, high) + [low]
  {
    hide LowByte;
    hide Value;
    LastDigit(high, Value(low));
    ValueIsInjective(LowByte(high * 256 + Value(low)), low);
  }

  lemma {:induction false} PutGet(s: Bytes)
    ensures Put(|s|, Get(s)) == s
  {
    if s != [] {
      var front, last := s[..|s| - 1], s[|s| - 1];
      assert Get(s) == Get(front) * 256 + Value(last);
      hide Put;
      hide Get;
      hide Value;
      PutGet(front);
      PutStep(|front|, Get(front), last);
      assert s == front + [last];
    }
  }

  function PutWord(c: bv32): (r: Bytes)
    ensures |r| == 4
  {
    [(c >> 24) as Byte, ((c >> 16) & 0xFF) as Byte, ((c >> 8) & 0xFF) as Byte, (c & 0xFF) as Byte]
  }

  function GetWord(s: Bytes): bv32
    requires |s| == 4
  {
    ((s[0] as bv32) << 24) | ((s[1] as bv32) << 16) | ((s[2] as bv32) << 8) | (s[3] as bv32)
  }

  lemma GetPutWord(c: bv32)
    ensures GetWord(PutWord(c)) == c
  {
  }

  lemma PutGetWord(s: Bytes)
    requires |s| == 4
    ensures PutWord(GetWord(s)) == s
  {
  }

  // ---------------------------------------------------------------------------
  // Encoding and decoding

  function FlagByte(preserveOrder: bool): Byte
  {
    if preserveOrder then 1 else 0
  }

  function EncodeTail(f: Frame, flag: Byte): Bytes
  {
    [flag] + Put(8, f.timestamp) + PutWord(f.checksum)
  }

  function EncodeHint(f: Frame, flag: Byte): Bytes
  {
    Put(2, |f.protocolHint|) + f.protocolHint + EncodeTail(f, flag)
  }

  function EncodePath(f: Frame, flag: Byte): Bytes
  {
    Put(2, |f.pathID|) + f.pathID + EncodeHint(f, flag)
  }

  /** The bytes of a frame with a given flag byte. A length that does not fit is truncated. */
  function EncodeWith(f: Frame, flag: Byte): Bytes
  {
    Put(8, f.frameID) + Put(4, |f.data|) + f.data + EncodePath(f, flag)
  }

  function Encode(f: Frame): Bytes
  {
    EncodeWith(f, FlagByte(f.preserveOrder))
  }

  lemma Widths()
    ensures Power256(2) == 0x1_0000 && Power256(4) == 0x1_0000_0000 && Power256(8) == 0x1_0000_0000_0000_0000
  {
    assert Power256(4) == 0x1_0000_0000;
    assert Power256(8) == 256 * (256 * (256 * (256 * Power256(4))));
  }

  function GetUInt64(s: Bytes): UInt64
    requires |s| == 8
  {
    Widths();
    Get(s)
  }

  function DecodeTail(f: Frame, rest: Bytes): (Frame, Outcome)
  {
    if |rest| < 1 then (f, MissingFlag)
    else
      var f1 := f.(preserveOrder := rest[0] == 1);
      if |rest| < 9 then (f1, MissingTimestamp)
      else
        var f2 := f1.(timestamp := GetUInt64(rest[1..9]));
        if |rest| < 13 then (f2, MissingChecksum)
        else
          var f3 := f2.(checksum := GetWord(rest[9..13]));
          (f3, if Checksum(f3.data) == f3.checksum then Accepted else ChecksumMismatch)
  }

  function DecodeHint(f: Frame, rest: Bytes): (Frame, Outcome)
  {
    if |rest| < 2 then (f, MissingHintLength)
    else
      var n := Get(rest[..2]);
      if |rest| < 2 + n then (f, MissingHint)
      else DecodeTail(f.(protocolHint := rest[2..2 + n]), rest[2 + n..])
  }

  function DecodePath(f: Frame, rest: Bytes): (Frame, Outcome)
  {
    if |rest| < 2 then (f, MissingPathLength)
    else
      var n := Get(rest[..2]);
      if |rest| < 2 + n then (f, MissingPath)
      else DecodeHint(f.(pathID := rest[2..2 + n]), rest[2 + n..])
  }

  function DecodeData(f: Frame, n: nat, rest: Bytes): (Frame, Outcome)
  {
    if |rest| < n then (f, MissingData)
    else DecodePath(f.(data := rest[..n]), rest[n..])
  }

  /** The frame after decoding into f, and what came of it; on an error the fields decoded
      before it stay overwritten. */
  function Decode(f: Frame, input: Bytes): (Frame, Outcome)
  {
    if |input| < MIN_LENGTH then (f, TooShort)
    else DecodeData(f.(frameID := GetUInt64(input[..8])), Get(input[8..12]), input[12..])
  }

  // ---------------------------------------------------------------------------
  // Round trips

  predicate Fits(f: Frame)
  {
    |f.data| < 0x1_0000_0000 && |f.pathID| < 0x1_0000 && |f.protocolHint| < 0x1_0000
  }

  function Verdict(f: Frame): Outcome
  {
    if Checksum(f.data) == f.checksum then Accepted else ChecksumMismatch
  }

  lemma TailRoundTrip(g: Frame, f: Frame, flag: Byte, rest: Bytes)
    requires f.preserveOrder == (flag == 1)
    requires g == f.(preserveOrder := g.preserveOrder, timestamp := g.timestamp, checksum := g.checksum)
    ensures DecodeTail(g, EncodeTail(f, flag) + rest) == (f, Verdict(f))
  {
    hide Checksum;
    hide Put;
    hide Get;
    hide PutWord;
    hide GetWord;
    var s := EncodeTail(f, flag) + rest;
    assert s[1..9] == Put(8, f.timestamp) && s[9..13] == PutWord(f.checksum);
    Widths();
    GetPut(8, f.timestamp);
    GetPutWord(f.checksum);
  }

  lemma HintRoundTrip(g: Frame, f: Frame, flag: Byte, rest: Bytes)
    requires |f.protocolHint| < 0x1_0000 && f.preserveOrder == (flag == 1)
    requires g == f.(protocolHint := g.protocolHint, preserveOrder := g.preserveOrder, timestamp := g.timestamp,
                     checksum := g.checksum)
    ensures DecodeHint(g, EncodeHint(f, flag) + rest) == (f, Verdict(f))
  {
    hide DecodeTail;
    hide EncodeTail;
    hide Verdict;
    hide Put;
    hide Get;
    var s, n := EncodeHint(f, flag) + rest, |f.protocolHint|;
    assert s[..2] == Put(2, n) && s[2..2 + n] == f.protocolHint && s[2 + n..] == EncodeTail(f, flag) + rest;
    Widths();
    GetPut(2, n);
    TailRoundTrip(g.(protocolHint := f.protocolHint), f, flag, rest);
  }

  lemma PathRoundTrip(g: Frame, f: Frame, flag: Byte, rest: Bytes)
    requires Fits(f) && f.preserveOrder == (flag == 1)
    requires g.frameID == f.frameID && g.data == f.data
    ensures DecodePath(g, EncodePath(f, flag) + rest) == (f, Verdict(f))
  {
    hide DecodeHint;
    hide EncodeHint;
    hide Verdict;
    hide Put;
    hide Get;
    var s, n := EncodePath(f, flag) + rest, |f.pathID|;
    assert s[..2] == Put(2, n) && s[2..2 + n] == f.pathID && s[2 + n..] == EncodeHint(f, flag) + rest;
    Widths();
    GetPut(2, n);
    HintRoundTrip(g.(pathID := f.pathID), f, flag, rest);
  }

  /** Decoding an encoded frame gives the frame back, whatever was in the target before, whatever
      follows, and whichever byte stands for a cleared flag; the checksum decides the verdict. */
  lemma RoundTripWith(g: Frame, f: Frame, flag: Byte, rest: Bytes)
    requires Fits(f) && f.preserveOrder == (flag == 1)
    ensures Decode(g, EncodeWith(f, flag) + rest) == (f, Verdict(f))
  {
    hide DecodePath;
    hide EncodePath;
    hide Verdict;
    hide Put;
    hide Get;
    var s, n := EncodeWith(f, flag) + rest, |f.data|;
    assert s[..8] == Put(8, f.frameID) && s[8..12] == Put(4, n);
    assert s[12..] == f.data + (EncodePath(f, flag) + rest);
    assert s[12..][..n] == f.data && s[12..][n..] == EncodePath(f, flag) + rest;
    EncodedLength(f, flag);
    Widths();
    GetPut(8, f.frameID);
    GetPut(4, n);
    PathRoundTrip(g.(frameID := f.frameID, data := f.data), f, flag, rest);
  }

  lemma EncodedLength(f: Frame, flag: Byte)
    ensures |EncodeWith(f, flag)| == MIN_LENGTH + |f.data| + |f.pathID| + |f.protocolHint|
  {
  }

  predicate ReachedChecksum(o: Outcome)
  {
    o == Accepted || o == ChecksumMismatch
  }

  lemma TailIsEncoding(g: Frame, s: Bytes)
    requires ReachedChecksum(DecodeTail(g, s).1)
    ensures |s| >= 13
    ensures var f := DecodeTail(g, s).0;
      && s == EncodeTail(f, s[0]) + s[13..] && f.preserveOrder == (s[0] == 1) && DecodeTail(g, s).1 == Verdict(f)
      && f == g.(preserveOrder := f.preserveOrder, timestamp := f.timestamp, checksum := f.checksum)
  {
    hide Checksum;
    hide Put;
    hide Get;
    hide PutWord;
    hide GetWord;
    PutGet(s[1..9]);
    PutGetWord(s[9..13]);
    assert s == [s[0]] + s[1..9] + s[9..13] + s[13..];
  }

  lemma HintIsEncoding(g: Frame, s: Bytes) returns (flag: Byte, rest: Bytes)
    requires ReachedChecksum(DecodeHint(g, s).1)
    ensures var f := DecodeHint(g, s).0;
      && s == EncodeHint(f, flag) + rest && f.preserveOrder == (flag == 1) && DecodeHint(g, s).1 == Verdict(f)
      && |f.protocolHint| < 0x1_0000
      && f.frameID == g.frameID && f.data == g.data && f.pathID == g.pathID
  {
    hide DecodeTail;
    hide EncodeTail;
    hide Verdict;
    hide Put;
    hide Get;
    var n := Get(s[..2]);
    var tail := s[2 + n..];
    TailIsEncoding(g.(protocolHint := s[2..2 + n]), tail);
    flag, rest := tail[0], tail[13..];
    Widths();
    PutGet(s[..2]);
    assert s == s[..2] + s[2..2 + n] + tail;
  }

  lemma PathIsEncoding(g: Frame, s: Bytes) returns (flag: Byte, rest: Bytes)
    requires ReachedChecksum(DecodePath(g, s).1)
    ensures var f := DecodePath(g, s).0;
      && s == EncodePath(f, flag) + rest && f.preserveOrder == (flag == 1) && DecodePath(g, s).1 == Verdict(f)
      && |f.protocolHint| < 0x1_0000 && |f.pathID| < 0x1_0000
      && f.frameID == g.frameID && f.data == g.data
  {
    hide DecodeHint;
    hide EncodeHint;
    hide Verdict;
    hide Put;
    hide Get;
    var n := Get(s[..2]);
    flag, rest := HintIsEncoding(g.(pathID := s[2..2 + n]), s[2 + n..]);
    Widths();
    PutGet(s[..2]);
    assert s == s[..2] + s[2..2 + n] + s[2 + n..];
  }

  /** Every input that decodes as far as the checksum starts with the encoding of the frame decoded. */
  lemma DecodedIsEncoding(g: Frame, input: Bytes) returns (flag: Byte, rest: Bytes)
    requires ReachedChecksum(Decode(g, input).1)
    ensures var f := Decode(g, input).0;
      && input == EncodeWith(f, flag) + rest && f.preserveOrder == (flag == 1)
      && Fits(f) && Decode(g, input).1 == Verdict(f)
  {
    hide DecodePath;
    hide EncodePath;
    hide Verdict;
    hide Put;
    hide Get;
    var n := Get(input[8..12]);
    var body := input[12..];
    flag, rest := PathIsEncoding(g.(frameID := GetUInt64(input[..8]), data := body[..n]), body[n..]);
    Widths();
    PutGet(input[..8]);
    PutGet(input[8..12]);
    assert input == input[..8] + input[8..12] + (body[..n] + body[n..]);
  }

  /** Decoding an encoded frame, with anything after it, gives the frame back and accepts it
      exactly when its lengths fit their fields and its checksum is that of its data. */
  lemma RoundTripIff(g: Frame, f: Frame, rest: Bytes)
    ensures Decode(g, Encode(f) + rest) == (f, Accepted) <==> Fits(f) && Checksum(f.data) == f.checksum
  {
    hide Decode;
    hide EncodeWith;
    hide Checksum;
    if Fits(f) {
      RoundTripWith(g, f, FlagByte(f.preserveOrder), rest);
    }
    if Decode(g, Encode(f) + rest) == (f, Accepted) {
      var _, _ := DecodedIsEncoding(g, Encode(f) + rest);
    }
  }

  /** Encoding a frame that was accepted gives back the bytes it was decoded from, exactly when
      the flag byte was 0 or 1. */
  lemma ReencodeIff(g: Frame, input: Bytes) returns (flag: Byte)
    requires Decode(g, input).1 == Accepted
    ensures var f := Decode(g, input).0;
      && var n := |Encode(f)|;
      && n <= |input| && n == MIN_LENGTH + |f.data| + |f.pathID| + |f.protocolHint|
      && flag == input[n - 13]
      && (input[..n] == Encode(f) <==> flag == 0 || flag == 1)
  {
    hide Decode;
    var f := Decode(g, input).0;
    var rest;
    flag, rest := DecodedIsEncoding(g, input);
    EncodedLength(f, flag);
    EncodedLength(f, FlagByte(f.preserveOrder));
    FlagAt(f, flag);
    FlagAt(f, FlagByte(f.preserveOrder));
    assert input[..|Encode(f)|] == EncodeWith(f, flag);
  }

  lemma FlagAt(f: Frame, flag: Byte)
    ensures EncodeWith(f, flag)[|EncodeWith(f, flag)| - 13] == flag
  {
    hide Put;
    hide PutWord;
    var head := Put(8, f.frameID) + Put(4, |f.data|) + f.data + Put(2, |f.pathID|) + f.pathID;
    var hint := Put(2, |f.protocolHint|) + f.protocolHint;
    assert EncodeWith(f, flag) == (head + hint) + ([flag] + Put(8, f.timestamp) + PutWord(f.checksum));
  }

  /** The error for a frame of which only the first k bytes arrived. */
  function CutOutcome(f: Frame, k: nat): Outcome
  {
    var data := 12 + |f.data|;
    var path := data + 2 + |f.pathID|;
    var hint := path + 2 + |f.protocolHint|;
    if k < MIN_LENGTH then TooShort
    else if k < data then MissingData
    else if k < data + 2 then MissingPathLength
    else if k < path then MissingPath
    else if k < path + 2 then MissingHintLength
    else if k < hint then MissingHint
    else if k < hint + 1 then MissingFlag
    else if k < hint + 9 then MissingTimestamp
    else MissingChecksum
  }

  lemma CutTail(g: Frame, f: Frame, flag: Byte, k: nat)
    requires k < 13
    ensures DecodeTail(g, EncodeTail(f, flag)[..k]).1 ==
      if k < 1 then MissingFlag else if k < 9 then MissingTimestamp else MissingChecksum
  {
    hide Checksum, Put, PutWord;
  }

  lemma CutField(length: Bytes, field: Bytes, rest: Bytes, k: nat)
    requires k <= |length| + |field| + |rest|
    ensures var s, n := (length + field + rest)[..k], |length| + |field|;
      && (k >= |length| ==> s[..|length|] == length)
      && (k >= n ==> s[|length|..n] == field && s[n..] == rest[..k - n])
  {
    FieldEnds(length, field, rest);
  }

  lemma CutHint(g: Frame, f: Frame, flag: Byte, k: nat)
    requires |f.protocolHint| < 0x1_0000 && k < 15 + |f.protocolHint|
    ensures |EncodeHint(f, flag)| == 15 + |f.protocolHint|
    ensures DecodeHint(g, EncodeHint(f, flag)[..k]).1 == CutOutcome(f, 14 + |f.data| + |f.pathID| + k)
         || 14 + |f.data| + |f.pathID| + k < MIN_LENGTH
  {
    var s, n := EncodeHint(f, flag)[..k], |f.protocolHint|;
    CutField(Put(2, n), f.protocolHint, EncodeTail(f, flag), k);
    Widths();
    GetPut(2, n);
    if k >= 2 + n {
      CutTail(g.(protocolHint := s[2..2 + n]), f, flag, k - 2 - n);
    }
    hide Put, Get, DecodeTail, EncodeTail;
  }

  /** Once the path is complete, decoding goes on with the hint. */
  lemma PathIsRead(g: Frame, f: Frame, flag: Byte, k: nat)
    requires |f.pathID| < 0x1_0000 && k <= |EncodePath(f, flag)|
    ensures var r, n := DecodePath(g, EncodePath(f, flag)[..k]), |f.pathID|;
      && (k < 2 ==> r.1 == MissingPathLength)
      && (2 <= k < 2 + n ==> r.1 == MissingPath)
      && (k >= 2 + n ==> r == DecodeHint(g.(pathID := f.pathID), EncodeHint(f, flag)[..k - 2 - n]))
  {
    var n := |f.pathID|;
    CutField(Put(2, n), f.pathID, EncodeHint(f, flag), k);
    Widths();
    GetPut(2, n);
    hide Put, Get, DecodeHint, EncodeHint;
  }

  lemma CutPath(g: Frame, f: Frame, flag: Byte, k: nat)
    requires Fits(f) && k < 17 + |f.pathID| + |f.protocolHint|
    ensures |EncodePath(f, flag)| == 17 + |f.pathID| + |f.protocolHint|
    ensures DecodePath(g, EncodePath(f, flag)[..k]).1 == CutOutcome(f, 12 + |f.data| + k)
         || 12 + |f.data| + k < MIN_LENGTH
  {
    var n := |f.pathID|;
    PathIsRead(g, f, flag, k);
    if k >= 2 + n {
      CutHint(g.(pathID := f.pathID), f, flag, k - 2 - n);
    }
    hide Put, DecodePath, DecodeHint;
  }

  lemma CutSplits(f: Frame, flag: Byte, k: nat)
    requires 12 <= k <= |EncodeWith(f, flag)|
    ensures var s, n := EncodeWith(f, flag)[..k], |f.data|;
      && s[..8] == Put(8, f.frameID) && s[8..12] == Put(4, n)
      && (k >= 12 + n ==> s[12..][..n] == f.data && s[12..][n..] == EncodePath(f, flag)[..k - 12 - n])
  {
    var e, n := EncodeWith(f, flag), |f.data|;
    EncodeSplits(f, flag);
    hide Put, EncodePath, EncodeWith;
    CutField(Put(4, n), f.data, EncodePath(f, flag), k - 8);
    assert e[..k][8..] == e[8..][..k - 8];
    assert e[..k][8..12] == e[8..][..k - 8][..4];
    assert k >= 12 + n ==> e[..k][12..][..n] == e[8..][..k - 8][4..4 + n];
    assert k >= 12 + n ==> e[..k][12..][n..] == e[8..][..k - 8][4 + n..];
  }

  lemma DataIsRead(g: Frame, f: Frame, flag: Byte, k: nat)
    requires Fits(f) && MIN_LENGTH <= k <= |EncodeWith(f, flag)|
    ensures var r, n := Decode(g, EncodeWith(f, flag)[..k]), |f.data|;
      && (k < 12 + n ==> r.1 == MissingData)
      && (k >= 12 + n ==>
            r == DecodePath(g.(frameID := f.frameID, data := f.data), EncodePath(f, flag)[..k - 12 - n]))
  {
    Widths();
    GetPut(8, f.frameID);
    GetPut(4, |f.data|);
    CutSplits(f, flag, k);
    hide Put, Get, DecodePath, EncodePath, EncodeWith;
  }

  /** A frame cut short is refused, with the error for the field it was cut in. */
  lemma CutIsRefused(g: Frame, f: Frame, k: nat)
    requires Fits(f) && k < |Encode(f)|
    ensures Decode(g, Encode(f)[..k]).1 == CutOutcome(f, k)
  {
    var flag, n := FlagByte(f.preserveOrder), |f.data|;
    EncodedLength(f, flag);
    if k >= MIN_LENGTH {
      DataIsRead(g, f, flag, k);
      if k >= 12 + n {
        CutPath(g.(frameID := f.frameID, data := f.data), f, flag, k - 12 - n);
      }
    }
    hide DecodeData, EncodePath, DecodePath, Put, GetUInt64;
  }

  /** A valid frame with one byte of its data changed on the way is rejected. */
  lemma CorruptedDataIsRejected(g: Frame, f: Frame, i: nat, b: Byte)
    requires Fits(f) && Checksum(f.data) == f.checksum && i < |f.data| && b != f.data[i]
    ensures 12 + i < |Encode(f)|
    ensures Decode(g, Encode(f)[12 + i := b]).1 == ChecksumMismatch
  {
    hide Decode;
    hide Checksum;
    hide EncodePath;
    hide Put;
    var f' := f.(data := f.data[i := b]);
    EncodedLength(f, FlagByte(f.preserveOrder));
    SameRest(f, f');
    assert Encode(f)[12 + i := b] == Encode(f') + [];
    OneByteChanges(f.data, i, b);
    RoundTripWith(g, f', FlagByte(f.preserveOrder), []);
  }

  lemma SameRest(f: Frame, f': Frame)
    requires f' == f.(data := f'.data)
    ensures EncodePath(f, FlagByte(f.preserveOrder)) == EncodePath(f', FlagByte(f'.preserveOrder))
  {
  }

  // ---------------------------------------------------------------------------
  // The frame object

  lemma EncodeIsFlat(f: Frame)
    ensures Encode(f) ==
            Put(8, f.frameID) + Put(4, |f.data|) + f.data + Put(2, |f.pathID|) + f.pathID + Put(2, |f.protocolHint|)
            + f.protocolHint + [FlagByte(f.preserveOrder)] + Put(8, f.timestamp) + PutWord(f.checksum)
  {
    hide Put;
    hide PutWord;
  }

  /** The digits of x to base 256, the highest first. */
  ghost predicate IsBigEndian(s: Bytes, x: nat)
  {
    forall i :: 0 <= i < |s| ==> Value(s[i]) == x / Power256(|s| - 1 - i) % 256
  }

  lemma {:induction false} ShiftIsQuotient(x: nat, k: nat)
    ensures ShiftRight(x, k) == x / Power256(k)
    decreases k
  {
    if k > 0 {
      ShiftIsQuotient(x / 256, k - 1);
      QuotientOfQuotient(x, Power256(k - 1));
    }
  }

  lemma QuotientOfQuotient(x: nat, d: nat)
    requires d > 0
    ensures x / 256 / d == x / (256 * d)
  {
    var q := x / 256 / d;
    assert q * d <= x / 256 < (q + 1) * d;
    assert (256 * d) * q <= x < (256 * d) * (q + 1) by {
      assert (256 * d) * q == 256 * (q * d) && (256 * d) * (q + 1) == 256 * ((q + 1) * d);
    }
    QuotientIs(x, 256 * d, q);
  }

  lemma QuotientIs(x: nat, d: nat, q: nat)
    requires d > 0 && d * q <= x < d * (q + 1)
    ensures x / d == q
  {
    var r := x / d;
    assert d * r <= x < d * (r + 1);
    if r < q {
      ProductGrows(d, r + 1, q);
    } else if q < r {
      ProductGrows(d, q + 1, r);
    }
  }

  lemma ProductGrows(d: nat, a: nat, b: nat)
    requires a <= b
    ensures d * a <= d * b
  {
  }

  lemma PutIsBigEndian(n: nat, x: nat)
    ensures IsBigEndian(Put(n, x), x)
  {
    forall i | 0 <= i < n
      ensures Value(Put(n, x)[i]) == x / Power256(n - 1 - i) % 256
    {
      PutAt(n, x, i);
      ShiftIsQuotient(x, n - 1 - i);
    }
  }

  lemma WordIsBigEndian(c: bv32)
    ensures var s := PutWord(c);
      c == ((s[0] as bv32) << 24) | ((s[1] as bv32) << 16) | ((s[2] as bv32) << 8) | (s[3] as bv32)
    ensures PutWord(0x01020304) == [1, 2, 3, 4]
  {
  }

  /** A length or number of n bytes comes first, highest byte first, and then a field of that
      length. */
  ghost predicate StartsWithField(s: Bytes, n: nat, field: Bytes)
  {
    |s| >= n + |field| && IsBigEndian(s[..n], |field|) && s[n..n + |field|] == field
  }

  /** Where each field of a frame lies: its number, three fields after their lengths, the flag, the
      timestamp and the checksum, and nothing more. */
  lemma LayoutIsFixed(f: Frame)
    ensures var e := Encode(f);
      && |e| == MIN_LENGTH + |f.data| + |f.pathID| + |f.protocolHint|
      && IsBigEndian(e[..8], f.frameID)
      && StartsWithField(e[8..], 4, f.data)
      && var path := e[12 + |f.data|..];
      && StartsWithField(path, 2, f.pathID)
      && var hint := path[2 + |f.pathID|..];
      && StartsWithField(hint, 2, f.protocolHint)
      && var tail := hint[2 + |f.protocolHint|..];
      && |tail| == 13
      && tail[0] == (if f.preserveOrder then 1 else 0)
      && IsBigEndian(tail[1..9], f.timestamp)
      && tail[9..] == PutWord(f.checksum)
  {
    var e, flag := Encode(f), FlagByte(f.preserveOrder);
    EncodedLength(f, flag);
    PutIsBigEndian(8, f.frameID);
    FieldComesFirst(4, f.data, EncodePath(f, flag));
    FieldComesFirst(2, f.pathID, EncodeHint(f, flag));
    FieldComesFirst(2, f.protocolHint, EncodeTail(f, flag));
    TailLayout(f, flag);
    EncodeSplits(f, flag);
    FieldEnds(Put(2, |f.pathID|), f.pathID, EncodeHint(f, flag));
    FieldEnds(Put(2, |f.protocolHint|), f.protocolHint, EncodeTail(f, flag));
    hide Put, PutWord, IsBigEndian, StartsWithField, EncodeTail;
  }

  lemma EncodeSplits(f: Frame, flag: Byte)
    ensures var e := EncodeWith(f, flag);
      && |e| >= 12 + |f.data|
      && e[..8] == Put(8, f.frameID)
      && e[8..] == Put(4, |f.data|) + f.data + EncodePath(f, flag)
      && e[12 + |f.data|..] == EncodePath(f, flag)
  {
    hide Put, EncodePath;
    var e := EncodeWith(f, flag);
    assert e[8..] == Put(4, |f.data|) + f.data + EncodePath(f, flag);
    FieldEnds(Put(4, |f.data|), f.data, EncodePath(f, flag));
    assert e[12 + |f.data|..] == e[8..][4 + |f.data|..];
  }

  lemma FieldEnds(length: Bytes, field: Bytes, rest: Bytes)
    ensures (length + field + rest)[|length| + |field|..] == rest
  {
  }

  lemma FieldComesFirst(n: nat, field: Bytes, rest: Bytes)
    ensures StartsWithField(Put(n, |field|) + field + rest, n, field)
  {
    PutIsBigEndian(n, |field|);
    assert (Put(n, |field|) + field + rest)[..n] == Put(n, |field|);
    hide Put, IsBigEndian;
  }

  lemma TailLayout(f: Frame, flag: Byte)
    ensures var tail := EncodeTail(f, flag);
      |tail| == 13 && tail[0] == flag && IsBigEndian(tail[1..9], f.timestamp) && tail[9..] == PutWord(f.checksum)
  {
    PutIsBigEndian(8, f.timestamp);
    hide Put, PutWord, IsBigEndian;
    assert EncodeTail(f, flag)[1..9] == Put(8, f.timestamp);
  }

  method AppendNumber(prefix: Bytes, n: nat, x: nat) returns (result: Bytes)
    ensures result == prefix + Put(n, x)
  {
    result := prefix;
    for i := 0 to n
      invariant result == prefix + Put(n, x)[..i]
    {
      PutAt(n, x, i);
      result := result + [LowByte(ShiftRight(x, n - 1 - i))];
      assert Put(n, x)[..i + 1] == Put(n, x)[..i] + [Put(n, x)[i]];
    }
    assert Put(n, x)[..n] == Put(n, x);
  }

  method ReadNumber(input: Bytes, offset: nat, n: nat) returns (x: nat)
    requires offset + n <= |input|
    ensures x == Get(input[offset..offset + n])
  {
    x := 0;
    for i := 0 to n
      invariant x == Get(input[offset..offset + i])
    {
      assert input[offset..offset + i + 1][..i] == input[offset..offset + i];
      x := x * 256 + Value(input[offset + i]);
    }
  }

  class RawPacketDataFrame {
    var frameID: UInt64
    var data: Bytes
    var pathID: Bytes
    var protocolHint: Bytes
    var preserveOrder: bool
    var timestamp: UInt64
    var checksum: bv32

    function View(): Frame
      reads this
    {
      Frame(frameID, data, pathID, protocolHint, preserveOrder, timestamp, checksum)
    }

    method Serialize() returns (result: Bytes)
      ensures result == Encode(View())
    {
      hide Put;
      hide PutWord;
      hide Encode;
      result := AppendNumber([], 8, frameID);
      assert result == Put(8, frameID);
      result := AppendNumber(result, 4, |data|);
      result := result + data;
      result := AppendNumber(result, 2, |pathID|);
      result := result + pathID;
      result := AppendNumber(result, 2, |protocolHint|);
      result := result + protocolHint;
      result := result + (if preserveOrder then [1] else [0]);
      result := AppendNumber(result, 8, timestamp);
      result := result + PutWord(checksum);
      EncodeIsFlat(View());
    }

    method Deserialize(input: Bytes) returns (outcome: Outcome)
      modifies this
      ensures (View(), outcome) == Decode(old(View()), input)
    {
      hide Get;
      hide DecodePath;
      if |input| < MIN_LENGTH {
        return TooShort;
      }
      Widths();
      var offset := 0;
      frameID := ReadNumber(input, offset, 8);
      offset := offset + 8;
      var dataLen := ReadNumber(input, offset, 4);
      offset := offset + 4;
      if |input| < offset + dataLen {
        return MissingData;
      }
      data := input[offset..offset + dataLen];
      offset := offset + dataLen;
      assert input[12..][..dataLen] == data && input[12..][dataLen..] == input[offset..];
      outcome := DeserializePath(input, offset);
    }

    method DeserializePath(input: Bytes, start: nat) returns (outcome: Outcome)
      requires start <= |input|
      modifies this
      ensures (View(), outcome) == DecodePath(old(View()), input[start..])
    {
      hide Get;
      hide DecodeHint;
      var offset := start;
      if |input| < offset + 2 {
        return MissingPathLength;
      }
      var pathIDLen := ReadNumber(input, offset, 2);
      offset := offset + 2;
      assert input[start..][..2] == input[start..offset];
      if |input| < offset + pathIDLen {
        return MissingPath;
      }
      pathID := input[offset..offset + pathIDLen];
      assert input[start..][2..2 + pathIDLen] == pathID;
      offset := offset + pathIDLen;
      assert input[start..][2 + pathIDLen..] == input[offset..];
      outcome := DeserializeHint(input, offset);
    }

    method DeserializeHint(input: Bytes, start: nat) returns (outcome: Outcome)
      requires start <= |input|
      modifies this
      ensures (View(), outcome) == DecodeHint(old(View()), input[start..])
    {
      hide Get;
      hide DecodeTail;
      var offset := start;
      if |input| < offset + 2 {
        return MissingHintLength;
      }
      var protocolHintLen := ReadNumber(input, offset, 2);
      offset := offset + 2;
      assert input[start..][..2] == input[start..offset];
      if |input| < offset + protocolHintLen {
        return MissingHint;
      }
      protocolHint := input[offset..offset + protocolHintLen];
      assert input[start..][2..2 + protocolHintLen] == protocolHint;
      offset := offset + protocolHintLen;
      assert input[start..][2 + protocolHintLen..] == input[offset..];
      outcome := DeserializeTail(input, offset);
    }

    method DeserializeTail(input: Bytes, start: nat) returns (outcome: Outcome)
      requires start <= |input|
      modifies this
      ensures (View(), outcome) == DecodeTail(old(View()), input[start..])
    {
      hide Get;
      hide GetWord;
      hide Checksum;
      var offset := start;
      if |input| < offset + 1 {
        return MissingFlag;
      }
      preserveOrder := input[offset] == 1;
      offset := offset + 1;
      if |input| < offset + 8 {
        return MissingTimestamp;
      }
      Widths();
      timestamp := ReadNumber(input, offset, 8);
      assert input[start..][1..9] == input[offset..offset + 8];
      offset := offset + 8;
      if |input| < offset + 4 {
        return MissingChecksum;
      }
      checksum := GetWord(input[offset..offset + 4]);
      assert input[start..][9..13] == input[offset..offset + 4];
      var calculatedChecksum := CalculateDataChecksum(data);
      if calculatedChecksum != checksum {
        return ChecksumMismatch;
      }
      outcome := Accepted;
    }
  }

  /** The self-check before a raw packet is sent: what was serialized is decoded into a fresh
      frame and compared. It passes whenever the lengths fit. */
  method SelfCheck(rawFrame: RawPacketDataFrame, verifyFrame: RawPacketDataFrame) returns (passed: bool)
    requires rawFrame != verifyFrame
    requires rawFrame.checksum == Checksum(rawFrame.data)
    modifies verifyFrame
    ensures Fits(rawFrame.View()) ==> passed && verifyFrame.View() == rawFrame.View()
    ensures passed ==> verifyFrame.data == rawFrame.data && verifyFrame.checksum == rawFrame.checksum
  {
    var frameData := rawFrame.Serialize();
    RoundTripIff(verifyFrame.View(), rawFrame.View(), []);
    assert frameData + [] == frameData;
    var outcome := verifyFrame.Deserialize(frameData);
    if outcome != Accepted {
      return false;
    }
    passed := VerifyRawDataIntegrity(rawFrame.data, verifyFrame.data, rawFrame.checksum, verifyFrame.checksum);
  }
}
