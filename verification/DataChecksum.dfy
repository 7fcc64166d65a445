/** The rotate-and-xor checksum of raw packet data, on 32-bit words. */
module DataChecksum {

  type Byte = bv8

  type Bytes = seq<Byte>

  function ShiftByte(w: bv32): bv32
  {
    w << 8
  }

  /** The byte shifted to its place in the word, by eight bits for each step of the position
      modulo four. */
  function Place(b: Byte, i: nat): bv32
  {
    var w := b as bv32;
    if i % 4 == 0 then w
    else if i % 4 == 1 then ShiftByte(w)
    else if i % 4 == 2 then ShiftByte(ShiftByte(w))
    else ShiftByte(ShiftByte(ShiftByte(w)))
  }

  function Xor(c: bv32, d: bv32): bv32
  {
    c ^ d
  }

  function RotateLeft(c: bv32): bv32
  {
    (c << 1) | (c >> 31)
  }

  function Mix(c: bv32, b: Byte, i: nat): bv32
  {
    RotateLeft(Xor(c, Place(b, i)))
  }

  /** The checksum of bytes that start at position i, from the word c. */
  function Fold(c: bv32, data: Bytes, i: nat): bv32
    decreases |data|
  {
    if data == [] then c else Fold(Mix(c, data[0], i), data[1..], i + 1)
  }

  function Checksum(data: Bytes): bv32
  {
    Fold(0, data, 0)
  }

  method CalculateDataChecksum(data: Bytes) returns (checksum: bv32)
    ensures checksum == Checksum(data)
  {
    checksum := 0;
    for i := 0 to |data|
      invariant Fold(checksum, data[i..], i) == Checksum(data)
    {
      checksum := checksum ^ Place(data[i], i);
      checksum := (checksum << 1) | (checksum >> 31);
      assert data[i..][1..] == data[i + 1..];
    }
  }

  /** Accepts exactly when nothing changed and the checksum is that of the data. */
  method VerifyRawDataIntegrity(originalData: Bytes, receivedData: Bytes, originalChecksum: bv32,
                                receivedChecksum: bv32)
    returns (ok: bool)
    ensures ok <==>
            && originalData == receivedData
            && originalChecksum == receivedChecksum == Checksum(receivedData)
  {
    if |originalData| != |receivedData| {
      return false;
    }
    if originalChecksum != receivedChecksum {
      return false;
    }
    for i := 0 to |originalData|
      invariant originalData[..i] == receivedData[..i]
    {
      if originalData[i] != receivedData[i] {
        return false;
      }
    }
    assert originalData == originalData[..|originalData|] && receivedData == receivedData[..|originalData|];
    var calculated := CalculateDataChecksum(receivedData);
    ok := calculated == receivedChecksum;
  }

  // ---------------------------------------------------------------------------
  // Linearity

  function XorByte(x: Byte, y: Byte): Byte
  {
    x ^ y
  }

  function XorBytes(a: Bytes, b: Bytes): (r: Bytes)
    requires |a| == |b|
    ensures |r| == |a|
  {
    seq(|a|, i requires 0 <= i < |a| => XorByte(a[i], b[i]))
  }

  lemma WidenIsLinear(x: Byte, y: Byte)
    ensures (x ^ y) as bv32 == Xor(x as bv32, y as bv32)
  {
  }

  lemma ShiftIsLinear(c: bv32, d: bv32)
    ensures ShiftByte(Xor(c, d)) == Xor(ShiftByte(c), ShiftByte(d))
  {
  }

  lemma PlaceIsLinear(x: Byte, y: Byte, i: nat)
    ensures Place(x ^ y, i) == Xor(Place(x, i), Place(y, i))
  {
    hide Xor;
    hide ShiftByte;
    var v, w := x as bv32, y as bv32;
    WidenIsLinear(x, y);
    ShiftIsLinear(v, w);
    ShiftIsLinear(ShiftByte(v), ShiftByte(w));
    ShiftIsLinear(ShiftByte(ShiftByte(v)), ShiftByte(ShiftByte(w)));
  }

  lemma RotateIsLinear(c: bv32, d: bv32)
    ensures RotateLeft(Xor(c, d)) == Xor(RotateLeft(c), RotateLeft(d))
  {
  }

  lemma XorAssociates(c: bv32, d: bv32, e: bv32)
    ensures Xor(Xor(c, d), e) == Xor(c, Xor(d, e))
  {
  }

  lemma XorCommutes(c: bv32, d: bv32)
    ensures Xor(c, d) == Xor(d, c)
  {
  }

  lemma XorRegroups(c: bv32, d: bv32, p: bv32, q: bv32)
    ensures Xor(Xor(c, d), Xor(p, q)) == Xor(Xor(c, p), Xor(d, q))
  {
    hide Xor;
    XorAssociates(c, d, Xor(p, q));
    XorAssociates(d, p, q);
    XorCommutes(d, p);
    XorAssociates(p, d, q);
    XorAssociates(c, p, Xor(d, q));
  }

  lemma MixIsLinear(c: bv32, d: bv32, x: Byte, y: Byte, i: nat)
    ensures Mix(Xor(c, d), x ^ y, i) == Xor(Mix(c, x, i), Mix(d, y, i))
  {
    hide Xor;
    hide Place;
    hide RotateLeft;
    PlaceIsLinear(x, y, i);
    XorRegroups(c, d, Place(x, i), Place(y, i));
    RotateIsLinear(Xor(c, Place(x, i)), Xor(d, Place(y, i)));
  }

  lemma {:induction false} FoldIsLinear(c: bv32, d: bv32, a: Bytes, b: Bytes, i: nat)
    requires |a| == |b|
    ensures Fold(Xor(c, d), XorBytes(a, b), i) == Xor(Fold(c, a, i), Fold(d, b, i))
    decreases |a|
  {
    hide Mix;
    hide Xor;
    if a != [] {
      MixIsLinear(c, d, a[0], b[0], i);
      FoldIsLinear(Mix(c, a[0], i), Mix(d, b[0], i), a[1..], b[1..], i + 1);
      assert XorBytes(a, b)[1..] == XorBytes(a[1..], b[1..]);
    }
  }

  /** On strings of one length the checksum of the difference is the difference of the checksums. */
  lemma ChecksumIsLinear(a: Bytes, b: Bytes)
    requires |a| == |b|
    ensures Checksum(XorBytes(a, b)) == Xor(Checksum(a), Checksum(b))
  {
    FoldIsLinear(0, 0, a, b, 0);
    XorIsZeroIff(0, 0);
  }

  lemma XorIsZeroIff(c: bv32, d: bv32)
    ensures Xor(c, d) == 0 <==> c == d
  {
  }

  /** Two strings of one length collide exactly when their difference has checksum zero. */
  lemma CollidesIff(a: Bytes, b: Bytes)
    requires |a| == |b|
    ensures Checksum(a) == Checksum(b) <==> Checksum(XorBytes(a, b)) == 0
  {
    hide Xor;
    hide Checksum;
    ChecksumIsLinear(a, b);
    XorIsZeroIff(Checksum(a), Checksum(b));
  }

  // ---------------------------------------------------------------------------
  // Strength

  lemma MixIsInjective(c: bv32, d: bv32, b: Byte, i: nat)
    requires c != d
    ensures Mix(c, b, i) != Mix(d, b, i)
  {
  }

  /** Every step is a bijection on the word, so what differs once differs to the end. */
  lemma {:induction false} FoldIsInjective(c: bv32, d: bv32, data: Bytes, i: nat)
    requires c != d
    ensures Fold(c, data, i) != Fold(d, data, i)
    decreases |data|
  {
    hide Mix;
    if data != [] {
      MixIsInjective(c, d, data[0], i);
      FoldIsInjective(Mix(c, data[0], i), Mix(d, data[0], i), data[1..], i + 1);
    }
  }

  lemma {:induction false} FoldAppend(c: bv32, a: Bytes, b: Bytes, i: nat)
    ensures Fold(c, a + b, i) == Fold(Fold(c, a, i), b, i + |a|)
    decreases |a|
  {
    hide Mix;
    if a == [] {
      assert a + b == b;
    } else {
      assert (a + b)[1..] == a[1..] + b;
      FoldAppend(Mix(c, a[0], i), a[1..], b, i + 1);
    }
  }

  lemma MixTellsBytesApart(c: bv32, x: Byte, y: Byte, i: nat)
    requires x != y
    ensures Mix(c, x, i) != Mix(c, y, i)
  {
  }

  /** Changing one byte always changes the checksum. */
  lemma OneByteChanges(data: Bytes, i: nat, b: Byte)
    requires i < |data| && data[i] != b
    ensures Checksum(data[i := b]) != Checksum(data)
  {
    hide Mix;
    var c := Fold(0, data[..i], 0);
    assert data == data[..i] + data[i..];
    assert data[i := b] == data[..i] + data[i := b][i..];
    assert data[i..][1..] == data[i + 1..] == data[i := b][i..][1..];
    FoldAppend(0, data[..i], data[i..], 0);
    FoldAppend(0, data[..i], data[i := b][i..], 0);
    MixTellsBytesApart(c, data[i], b, i);
    FoldIsInjective(Mix(c, data[i], i), Mix(c, b, i), data[i + 1..], i + 1);
  }

  lemma RotateOfZeroIff(c: bv32)
    ensures RotateLeft(c) == 0 <==> c == 0
  {
  }

  lemma XorLaws(c: bv32)
    ensures Xor(c, c) == 0 && Xor(0, c) == c
  {
  }

  lemma FoldTwo(c: bv32, x: Byte, y: Byte, tail: Bytes, i: nat)
    ensures Fold(c, [x, y] + tail, i) == Fold(Mix(Mix(c, x, i), y, i + 1), tail, i + 2)
  {
    hide Mix;
    assert ([x, y] + tail)[1..] == [y] + tail;
    assert ([y] + tail)[1..] == tail;
  }

  /** Two changed bytes can cancel: the checksum is not injective, even on two bytes. */
  lemma TwoBytesCanCollide()
    ensures Checksum([0x80, 0x00]) == Checksum([0x00, 0x01])
  {
    hide Mix;
    FoldTwo(0, 0x80, 0x00, [], 0);
    FoldTwo(0, 0x00, 0x01, [], 0);
    assert [0x80, 0x00] + [] == [0x80, 0x00] && [0x00, 0x01] + [] == [0x00, 0x01];
    CollidingMixes();
  }

  lemma CollidingMixes()
    ensures Mix(Mix(0, 0x80, 0), 0x00, 1) == Mix(Mix(0, 0x00, 0), 0x01, 1)
  {
  }

  // ---------------------------------------------------------------------------
  // Which swaps are detected

  function Rotations(c: bv32, k: nat): bv32
    decreases k
  {
    if k == 0 then c else Rotations(RotateLeft(c), k - 1)
  }

  function Zeros(n: nat): (r: Bytes)
    ensures |r| == n
  {
    seq(n, i => 0)
  }

  lemma MixZero(c: bv32, i: nat)
    ensures Mix(c, 0, i) == RotateLeft(c)
  {
    hide RotateLeft;
    PlaceOfZero(i);
    XorCommutes(c, 0);
    XorLaws(c);
  }

  lemma PlaceOfZero(i: nat)
    ensures Place(0, i) == 0
  {
  }

  lemma {:induction false} FoldZeros(c: bv32, n: nat, i: nat)
    ensures Fold(c, Zeros(n), i) == Rotations(c, n)
    decreases n
  {
    hide Mix;
    hide RotateLeft;
    if n > 0 {
      MixZero(c, i);
      assert Zeros(n)[1..] == Zeros(n - 1);
      FoldZeros(RotateLeft(c), n - 1, i + 1);
    }
  }

  lemma {:induction false} RotationsOfZeroIff(c: bv32, k: nat)
    ensures Rotations(c, k) == 0 <==> c == 0
    decreases k
  {
    hide RotateLeft;
    if k > 0 {
      RotateOfZeroIff(c);
      RotationsOfZeroIff(RotateLeft(c), k - 1);
    }
  }

  /** A difference of d at i and at j, and nowhere else. */
  function TwoBytes(n: nat, i: nat, j: nat, d: Byte): Bytes
    requires i < j < n
  {
    Zeros(i) + ([d] + (Zeros(j - i - 1) + ([d] + Zeros(n - j - 1))))
  }

  lemma FoldZerosThen(c: bv32, n: nat, rest: Bytes, i: nat)
    ensures Fold(c, Zeros(n) + rest, i) == Fold(Rotations(c, n), rest, i + n)
  {
    hide Mix;
    FoldAppend(c, Zeros(n), rest, i);
    FoldZeros(c, n, i);
  }

  lemma FoldByteThen(c: bv32, b: Byte, rest: Bytes, i: nat)
    ensures Fold(c, [b] + rest, i) == Fold(Mix(c, b, i), rest, i + 1)
  {
    hide Mix;
    assert ([b] + rest)[1..] == rest;
  }

  lemma FoldToSecond(i: nat, j: nat, d: Byte, rest: Bytes)
    requires i < j
    ensures Fold(0, Zeros(i) + ([d] + (Zeros(j - i - 1) + rest)), 0) == Fold(Rotations(Place(d, i), j - i), rest, j)
  {
    var p := Place(d, i);
    assert Rotations(p, j - i) == Rotations(RotateLeft(p), j - i - 1);
    hide Place;
    hide Xor;
    hide RotateLeft;
    hide Rotations;
    hide Fold;
    var tail := Zeros(j - i - 1) + rest;
    FoldZerosThen(0, i, [d] + tail, 0);
    RotationsOfZeroIff(0, i);
    FoldByteThen(0, d, tail, i);
    XorLaws(p);
    FoldZerosThen(RotateLeft(p), j - i - 1, rest, i + 1);
  }

  lemma FoldFromSecond(c: bv32, d: Byte, n: nat, j: nat)
    ensures Fold(c, [d] + Zeros(n), j) == 0 <==> c == Place(d, j)
  {
    hide Place;
    hide Xor;
    hide RotateLeft;
    hide Rotations;
    hide Fold;
    var e := Xor(c, Place(d, j));
    FoldByteThen(c, d, Zeros(n), j);
    FoldZeros(RotateLeft(e), n, j + 1);
    RotationsOfZeroIff(RotateLeft(e), n);
    RotateOfZeroIff(e);
    XorIsZeroIff(c, Place(d, j));
  }

  lemma FoldTwoBytes(n: nat, i: nat, j: nat, d: Byte)
    requires i < j < n
    ensures Checksum(TwoBytes(n, i, j, d)) == 0 <==> Rotations(Place(d, i), j - i) == Place(d, j)
  {
    hide Place;
    hide Rotations;
    hide Fold;
    FoldToSecond(i, j, d, [d] + Zeros(n - j - 1));
    FoldFromSecond(Rotations(Place(d, i), j - i), d, n - j - 1, j);
  }

  lemma TwoBytesAt(n: nat, i: nat, j: nat, d: Byte, k: nat)
    requires i < j < n && k < n
    ensures |TwoBytes(n, i, j, d)| == n
    ensures TwoBytes(n, i, j, d)[k] == if k == i || k == j then d else 0
  {
  }

  function Swapped(data: Bytes, i: nat, j: nat): (r: Bytes)
    requires i < j < |data|
    ensures |r| == |data|
  {
    data[i := data[j]][j := data[i]]
  }

  lemma SwapDifference(data: Bytes, i: nat, j: nat)
    requires i < j < |data|
    ensures XorBytes(data, Swapped(data, i, j)) == TwoBytes(|data|, i, j, XorByte(data[i], data[j]))
  {
    hide XorByte;
    hide TwoBytes;
    var d := XorByte(data[i], data[j]);
    var x, y := XorBytes(data, Swapped(data, i, j)), TwoBytes(|data|, i, j, d);
    TwoBytesAt(|data|, i, j, d, 0);
    forall k | 0 <= k < |data| ensures x[k] == y[k] {
      TwoBytesAt(|data|, i, j, d, k);
      XorByteLaws(data[k], data[if k == i then j else if k == j then i else k]);
    }
  }

  lemma XorByteLaws(x: Byte, y: Byte)
    ensures XorByte(x, y) == XorByte(y, x)
    ensures x == y ==> XorByte(x, y) == 0
  {
  }

  /** A swap goes unnoticed exactly when the difference, rotated by the distance from its first
      place, is itself in its second place. */
  lemma SwapMeetsItselfIff(data: Bytes, i: nat, j: nat)
    requires i < j < |data|
    ensures var d := XorByte(data[i], data[j]);
      Checksum(Swapped(data, i, j)) == Checksum(data) <==> Rotations(Place(d, i), j - i) == Place(d, j)
  {
    hide Checksum;
    hide Place;
    hide Rotations;
    hide Swapped;
    hide XorByte;
    CollidesIff(data, Swapped(data, i, j));
    SwapDifference(data, i, j);
    FoldTwoBytes(|data|, i, j, XorByte(data[i], data[j]));
  }

  lemma {:induction false} RotationsAdd(c: bv32, j: nat, k: nat)
    ensures Rotations(c, j + k) == Rotations(Rotations(c, j), k)
    decreases j
  {
    hide RotateLeft;
    if j > 0 {
      RotationsAdd(RotateLeft(c), j - 1, k);
    }
  }

  function TurnBy4(c: bv32): bv32
  {
    (c << 4) | (c >> 28)
  }

  function TurnBy16(c: bv32): bv32
  {
    (c << 16) | (c >> 16)
  }

  lemma FourRotations(c: bv32)
    ensures Rotations(c, 4) == TurnBy4(c)
  {
    hide RotateLeft;
    hide TurnBy4;
    RotateFourTimes(c);
    var d := RotateLeft(RotateLeft(c));
    assert Rotations(c, 4) == Rotations(RotateLeft(c), 3) == Rotations(d, 2);
  }

  lemma RotateFourTimes(c: bv32)
    ensures RotateLeft(RotateLeft(RotateLeft(RotateLeft(c)))) == TurnBy4(c)
  {
  }

  lemma TurnFourTimes(c: bv32)
    ensures TurnBy4(TurnBy4(TurnBy4(TurnBy4(c)))) == TurnBy16(c)
  {
  }

  lemma SixteenRotations(c: bv32)
    ensures Rotations(c, 16) == TurnBy16(c)
  {
    hide TurnBy4;
    hide TurnBy16;
    hide Rotations;
    var c1 := TurnBy4(c);
    var c2 := TurnBy4(c1);
    var c3 := TurnBy4(c2);
    FourRotations(c);
    FourRotations(c1);
    FourRotations(c2);
    FourRotations(c3);
    RotationsAdd(c, 4, 12);
    RotationsAdd(c1, 4, 8);
    RotationsAdd(c2, 4, 4);
    TurnFourTimes(c);
  }

  lemma TurnTwice(c: bv32)
    ensures TurnBy16(TurnBy16(c)) == c
  {
  }

  lemma FullTurn(c: bv32)
    ensures Rotations(c, 32) == c
  {
    hide TurnBy16;
    hide Rotations;
    RotationsAdd(c, 16, 16);
    SixteenRotations(c);
    SixteenRotations(TurnBy16(c));
    TurnTwice(c);
  }

  lemma {:induction false} RotationsModulo(c: bv32, k: nat)
    ensures Rotations(c, k) == Rotations(c, k % 32)
    decreases k
  {
    hide Rotations;
    if k >= 32 {
      RotationsAdd(c, 32, k - 32);
      FullTurn(c);
      RotationsModulo(c, k - 32);
    }
  }

  /** The position modulo four, as a byte. */
  function Quarter(i: nat): (a: bv8)
    ensures a < 4
  {
    if i % 4 == 0 then 0 else if i % 4 == 1 then 1 else if i % 4 == 2 then 2 else 3
  }

  function PlaceBy(d: Byte, a: bv8): bv32
    requires a < 4
  {
    (d as bv32) << (8 * a)
  }

  function TurnBy(c: bv32, b: bv8): bv32
    requires b < 32
  {
    (c << b) | (c >> (32 - b))
  }

  lemma PlaceByAll(d: Byte)
    ensures PlaceBy(d, 0) == d as bv32
    ensures PlaceBy(d, 1) == ShiftByte(d as bv32)
    ensures PlaceBy(d, 2) == ShiftByte(ShiftByte(d as bv32))
    ensures PlaceBy(d, 3) == ShiftByte(ShiftByte(ShiftByte(d as bv32)))
  {
  }

  lemma PlaceIsPlaceBy(d: Byte, i: nat)
    ensures Place(d, i) == PlaceBy(d, Quarter(i))
  {
    hide PlaceBy;
    hide ShiftByte;
    PlaceByAll(d);
  }

  lemma NextQuarter(i: nat)
    ensures Quarter(i + 1) == (Quarter(i) + 1) & 3
  {
  }

  lemma QuarterCarry(a: bv8, b: bv8)
    requires a < 4 && b < 31
    ensures (((a + b) & 3) + 1) & 3 == (a + (b + 1)) & 3
    ensures (a + b) & 3 < 4
  {
  }

  lemma Increment(b: bv8)
    requires b < 31
    ensures (b + 1) as int == b as int + 1 && b + 1 < 32
  {
  }

  lemma OneMoreTurn(c: bv32, b: bv8)
    requires b < 31
    ensures RotateLeft(TurnBy(c, b)) == TurnBy(c, b + 1)
  {
  }

  lemma NoTurn(c: bv32)
    ensures TurnBy(c, 0) == c
  {
  }

  lemma AtMost30(b: bv8)
    requires b as int < 31
    ensures b < 31
  {
  }

  lemma QuarterOfQuarter(i: nat)
    ensures (Quarter(i) + 0) & 3 == Quarter(i)
  {
  }

  /** Fewer than 32 rotations are one turn by a byte-sized amount, which also moves the quarter. */
  lemma {:induction false} RotationsAreTurn(c: bv32, i: nat, r: nat) returns (b: bv8)
    requires r < 32
    ensures b as int == r && b < 32
    ensures Rotations(c, r) == TurnBy(c, b)
    ensures Quarter(i + r) == (Quarter(i) + b) & 3
    decreases r
  {
    if r == 0 {
      b := 0;
      NoTurn(c);
      QuarterOfQuarter(i);
    } else {
      assert forall d :: Rotations(d, 1) == RotateLeft(d);
      hide Rotations;
      hide TurnBy;
      hide RotateLeft;
      hide Quarter;
      b := RotationsAreTurn(c, i, r - 1);
      AtMost30(b);
      RotationsAdd(c, r - 1, 1);
      OneMoreTurn(c, b);
      NextQuarter(i + r - 1);
      QuarterCarry(Quarter(i), b);
      Increment(b);
      b := b + 1;
    }
  }

  /** A byte turned by less than a whole word is never itself in the quarter it should be in. */
  lemma TurnMissesQuarter(d: Byte, a: bv8, b: bv8)
    requires d != 0 && a < 4 && 0 < b < 32
    ensures (a + b) & 3 < 4
    ensures TurnBy(PlaceBy(d, a), b) != PlaceBy(d, (a + b) & 3)
  {
  }

  lemma PlaceOfDistance(d: Byte, i: nat, k: nat)
    requires d != 0
    ensures Rotations(Place(d, i), k) == Place(d, i + k) <==> k % 32 == 0
  {
    hide Rotations;
    hide Place;
    hide PlaceBy;
    hide TurnBy;
    var r := k % 32;
    RotationsModulo(Place(d, i), k);
    SameQuarter(d, i + k, i + r);
    PlaceIsPlaceBy(d, i);
    PlaceIsPlaceBy(d, i + r);
    var b := RotationsAreTurn(Place(d, i), i, r);
    if r == 0 {
      IsZero(b);
      NoTurn(Place(d, i));
    } else {
      IsPositive(b);
      TurnMissesQuarter(d, Quarter(i), b);
    }
  }

  lemma IsZero(b: bv8)
    requires b as int == 0
    ensures b == 0
  {
  }

  lemma IsPositive(b: bv8)
    requires b as int > 0
    ensures 0 < b
  {
  }

  lemma SameQuarter(d: Byte, i: nat, j: nat)
    requires i % 4 == j % 4
    ensures Place(d, i) == Place(d, j)
  {
  }

  /** Swapping two bytes goes unnoticed exactly when they are equal or a multiple of 32 positions apart. */
  lemma SwapGoesUnnoticedIff(data: Bytes, i: nat, j: nat)
    requires i < j < |data|
    ensures Checksum(Swapped(data, i, j)) == Checksum(data) <==> data[i] == data[j] || (j - i) % 32 == 0
  {
    hide Checksum;
    hide Place;
    hide Rotations;
    hide Swapped;
    hide XorByte;
    var d := XorByte(data[i], data[j]);
    XorByteIsZeroIff(data[i], data[j]);
    SwapMeetsItselfIff(data, i, j);
    if d == 0 {
      PlaceOfZero(i);
      PlaceOfZero(j);
      RotationsOfZeroIff(0, j - i);
    } else {
      PlaceOfDistance(d, i, j - i);
    }
  }

  lemma XorByteIsZeroIff(x: Byte, y: Byte)
    ensures XorByte(x, y) == 0 <==> x == y
  {
  }

  /** Swapping two different neighbours always changes the checksum. */
  lemma SwapOfNeighboursChanges(data: Bytes, i: nat)
    requires i + 1 < |data| && data[i] != data[i + 1]
    ensures Checksum(Swapped(data, i, i + 1)) != Checksum(data)
  {
    hide Checksum;
    SwapGoesUnnoticedIff(data, i, i + 1);
  }

  /** Bytes a multiple of 32 positions apart can always be swapped without changing the checksum. */
  lemma SwapAtMultiplesOf32(data: Bytes, i: nat, turns: nat)
    requires turns > 0 && i + 32 * turns < |data|
    ensures Checksum(Swapped(data, i, i + 32 * turns)) == Checksum(data)
  {
    hide Checksum;
    SwapGoesUnnoticedIff(data, i, i + 32 * turns);
  }
}
