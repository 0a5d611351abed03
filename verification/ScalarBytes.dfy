/** Scalars of up to sixteen bytes laid out in either byte order and read back. */
module ScalarBytes {

  datatype Order = Little | Big

  datatype ScalarBits = ScalarBits(low: bv64, high: bv64)

  /** A word shifted right, and left, by a number of bytes. */
  function ShiftedDown(word: bv64, bytes: nat): bv64
    requires bytes < 8
  {
    match bytes
    case 0 => word case 1 => word >> 8 case 2 => word >> 16 case 3 => word >> 24
    case 4 => word >> 32 case 5 => word >> 40 case 6 => word >> 48 case _ => word >> 56
  }

  function ShiftedUp(word: bv64, bytes: nat): bv64
    requires bytes < 8
  {
    match bytes
    case 0 => word case 1 => word << 8 case 2 => word << 16 case 3 => word << 24
    case 4 => word << 32 case 5 => word << 40 case 6 => word << 48 case _ => word << 56
  }

  /** The byte of a word that index selects. */
  function ByteOf(word: bv64, index: nat): bv8
    requires index < 8
  {
    (ShiftedDown(word, index) & 0xff) as bv8
  }

  function Placed(byte: bv8, index: nat): bv64
    requires index < 8
  {
    ShiftedUp(byte as bv64, index)
  }

  /** A byte added to a word at an index. */
  function Joined(word: bv64, byte: bv8, index: nat): bv64
    requires index < 8
  {
    Or(word, Placed(byte, index))
  }

  function Or(a: bv64, b: bv64): bv64 {
    a | b
  }

  /** The low n bytes of a word. */
  function Truncated(word: bv64, n: nat): bv64 {
    match n
    case 0 => 0
    case 1 => word & 0xff
    case 2 => word & 0xffff
    case 3 => word & 0xff_ffff
    case 4 => word & 0xffff_ffff
    case 5 => word & 0xff_ffff_ffff
    case 6 => word & 0xffff_ffff_ffff
    case 7 => word & 0xff_ffff_ffff_ffff
    case _ => word
  }

  lemma OneMoreByte(word: bv64, index: nat)
    requires index < 8
    ensures Joined(Truncated(word, index), ByteOf(word, index), index) == Truncated(word, index + 1)
  {
    match index
    case 0 =>
    case 1 =>
    case 2 =>
    case 3 =>
    case 4 =>
    case 5 =>
    case 6 =>
    case _ =>
  }

  // ---------------------------------------------------------------- images

  function Min(a: nat, b: nat): nat {
    if a < b then a else b
  }

  /** The byte of a scalar at an index, least significant first; past the sixteenth there is only fill. */
  function ScalarByte(bits: ScalarBits, fill: bv8, index: nat): bv8 {
    if index < 8 then ByteOf(bits.low, index) else if index < 16 then ByteOf(bits.high, index - 8) else fill
  }

  /** Where that byte is in memory. */
  function Position(order: Order, size: nat, index: nat): (p: nat)
    requires index < size
    ensures p < size
  {
    if order == Big then size - 1 - index else index
  }

  function Image(size: nat, bits: ScalarBits, order: Order, fill: bv8): seq<bv8> {
    seq(size, p requires 0 <= p < size => ScalarByte(bits, fill, Position(order, size, p)))
  }

  function Backwards(image: seq<bv8>): seq<bv8> {
    seq(|image|, p requires 0 <= p < |image| => image[|image| - 1 - p])
  }

  /** The big-endian image is the little-endian one backwards. */
  lemma BigIsLittleBackwards(size: nat, bits: ScalarBits, fill: bv8)
    ensures Image(size, bits, Big, fill) == Backwards(Image(size, bits, Little, fill))
  {
    hide ScalarByte;
    var big, little := Image(size, bits, Big, fill), Image(size, bits, Little, fill);
    forall p | 0 <= p < size ensures big[p] == Backwards(little)[p] {
      assert little[size - 1 - p] == ScalarByte(bits, fill, size - 1 - p);
    }
  }

  method WriteScalarBits(out: array<bv8>, size: nat, bits: ScalarBits, order: Order, fill: bv8)
    requires size <= out.Length
    modifies out
    ensures out[..size] == Image(size, bits, order, fill)
    ensures out[size..] == old(out[size..])
  {
    hide ByteOf;
    for index := 0 to size
      invariant forall i :: 0 <= i < index ==> out[Position(order, size, i)] == ScalarByte(bits, fill, i)
      invariant forall p :: size <= p < out.Length ==> out[p] == old(out[p])
    {
      var byte := if index < 8 then ByteOf(bits.low, index) else if index < 16 then ByteOf(bits.high, index - 8) else fill;
      out[Position(order, size, index)] := byte;
    }
    forall p | 0 <= p < size ensures out[p] == Image(size, bits, order, fill)[p] {
      var i := Position(order, size, p);
      assert Position(order, size, i) == p;
    }
  }

  // ---------------------------------------------------------------- reading

  /** The first n bytes of a sequence as a word. */
  function Assembled(bytes: seq<bv8>, n: nat): bv64
    requires n <= |bytes| && n <= 8
  {
    if n == 0 then 0 else Joined(Assembled(bytes, n - 1), bytes[n - 1], n - 1)
  }

  /** Bytes least significant first. */
  function InOrder(bytes: seq<bv8>, order: Order): seq<bv8> {
    seq(|bytes|, i requires 0 <= i < |bytes| => bytes[Position(order, |bytes|, i)])
  }

  function Reading(bytes: seq<bv8>, order: Order): ScalarBits {
    var s := InOrder(bytes, order);
    if |s| <= 8 then ScalarBits(Assembled(s, |s|), 0)
    else ScalarBits(Assembled(s, 8), Assembled(s[8..], Min(|s| - 8, 8)))
  }

  method ReadScalarBits(source: seq<bv8>, order: Order) returns (bits: ScalarBits)
    ensures bits == Reading(source, order)
  {
    hide Joined;
    var low, high := 0, 0;
    ghost var s := InOrder(source, order);
    var size, index := |source|, 0;
    while index < size && index < 16
      invariant 0 <= index <= size && index <= 16
      invariant low == Assembled(s, Min(index, 8))
      invariant if index <= 8 then high == 0 else high == Assembled(s[8..], index - 8)
    {
      var byte := source[Position(order, size, index)];
      assert byte == s[index];
      if index < 8 {
        low := Joined(low, byte, index);
      } else {
        high := Joined(high, byte, index - 8);
      }
      index := index + 1;
    }
    bits := ScalarBits(low, high);
  }

  lemma {:induction false} AssembledFromWord(bytes: seq<bv8>, word: bv64, n: nat)
    requires n <= |bytes| && n <= 8 && forall i :: 0 <= i < n ==> bytes[i] == ByteOf(word, i)
    ensures Assembled(bytes, n) == Truncated(word, n)
  {
    hide ByteOf, Joined;
    if n > 0 {
      hide Truncated;
      AssembledFromWord(bytes, word, n - 1);
      OneMoreByte(word, n - 1);
    }
  }

  /** Reading back what was written gives the scalar, cut to the bytes there were. */
  lemma ReadAfterWrite(size: nat, bits: ScalarBits, order: Order, fill: bv8)
    ensures Reading(Image(size, bits, order, fill), order)
         == ScalarBits(Truncated(bits.low, Min(size, 8)), Truncated(bits.high, if size <= 8 then 0 else Min(size - 8, 8)))
  {
    hide ByteOf, Assembled, Truncated;
    var s := InOrder(Image(size, bits, order, fill), order);
    assert forall i :: 0 <= i < size ==> s[i] == ScalarByte(bits, fill, i);
    AssembledFromWord(s, bits.low, Min(size, 8));
    if size > 8 {
      AssembledFromWord(s[8..], bits.high, Min(size - 8, 8));
    } else {
      assert Truncated(bits.high, 0) == 0 by { NothingLeft(bits.high); }
    }
  }

  lemma NothingLeft(word: bv64)
    ensures Truncated(word, 0) == 0
  {
  }

  lemma TruncatedOr(a: bv64, b: bv64, k: nat)
    ensures Truncated(Or(a, b), k) == Or(Truncated(a, k), Truncated(b, k))
  {
    match k
    case 1 =>
    case 2 =>
    case 3 =>
    case 4 =>
    case 5 =>
    case 6 =>
    case 7 =>
    case _ =>
  }

  lemma PlacedBetween(byte: bv8, k: nat)
    requires k < 8
    ensures Truncated(Placed(byte, k), k) == 0 && Truncated(Placed(byte, k), k + 1) == Placed(byte, k)
  {
    match k
    case 0 =>
    case 1 =>
    case 2 =>
    case 3 =>
    case 4 =>
    case 5 =>
    case 6 =>
    case _ =>
  }

  lemma StillTruncated(word: bv64, k: nat)
    ensures Truncated(Truncated(word, k), k + 1) == Truncated(word, k)
  {
    match k
    case 0 =>
    case 1 =>
    case 2 =>
    case 3 =>
    case 4 =>
    case 5 =>
    case 6 =>
    case _ =>
  }

  lemma OrNothing(a: bv64)
    ensures Or(a, 0) == a
  {
  }

  /** Joining a byte above the low k of a word changes none of them and nothing above it. */
  lemma JoinedIsLow(word: bv64, byte: bv8, k: nat)
    requires k < 8 && Truncated(word, k) == word
    ensures Truncated(Joined(word, byte, k), k + 1) == Joined(word, byte, k)
    ensures Truncated(Joined(word, byte, k), k) == word
  {
    hide Truncated, Placed, Or;
    OrNothing(word);
    TruncatedOr(word, Placed(byte, k), k);
    TruncatedOr(word, Placed(byte, k), k + 1);
    PlacedBetween(byte, k);
    StillTruncated(word, k);
  }

  lemma JoinedByte(word: bv64, byte: bv8, k: nat)
    requires k < 8 && Truncated(word, k) == word
    ensures ByteOf(Joined(word, byte, k), k) == byte
  {
    match k
    case 0 =>
    case 1 =>
    case 2 =>
    case 3 =>
    case 4 =>
    case 5 =>
    case 6 =>
    case _ =>
  }

  lemma ByteOfTruncated(word: bv64, n: nat, i: nat)
    requires i < n <= 8
    ensures ByteOf(Truncated(word, n), i) == ByteOf(word, i)
  {
    match n
    case 1 =>
    case 2 =>
    case 3 =>
    case 4 =>
    case 5 =>
    case 6 =>
    case 7 =>
    case _ =>
  }

  lemma {:induction false} BytesOfAssembled(bytes: seq<bv8>, n: nat)
    requires n <= |bytes| && n <= 8
    ensures Truncated(Assembled(bytes, n), n) == Assembled(bytes, n)
    ensures forall i :: 0 <= i < n ==> ByteOf(Assembled(bytes, n), i) == bytes[i]
  {
    hide ByteOf, Joined, Truncated;
    if n == 0 {
      NothingLeft(0);
    } else {
      BytesOfAssembled(bytes, n - 1);
      var word := Assembled(bytes, n - 1);
      JoinedIsLow(word, bytes[n - 1], n - 1);
      JoinedByte(word, bytes[n - 1], n - 1);
      forall i | 0 <= i < n ensures ByteOf(Assembled(bytes, n), i) == bytes[i] {
        if i < n - 1 {
          ByteOfTruncated(Joined(word, bytes[n - 1], n - 1), n - 1, i);
        }
      }
    }
  }

  /** Writing what was read restores the bytes, for scalars of at most sixteen. */
  lemma WriteAfterRead(bytes: seq<bv8>, order: Order, fill: bv8)
    requires |bytes| <= 16
    ensures Image(|bytes|, Reading(bytes, order), order, fill) == bytes
  {
    hide ByteOf, Assembled, Truncated;
    var s := InOrder(bytes, order);
    BytesOfAssembled(s, Min(|s|, 8));
    if |s| > 8 {
      BytesOfAssembled(s[8..], |s| - 8);
    }
    forall p | 0 <= p < |bytes| ensures Image(|bytes|, Reading(bytes, order), order, fill)[p] == bytes[p] {
      var i := Position(order, |bytes|, p);
      assert Position(order, |bytes|, i) == p;
      assert s[i] == bytes[p];
      if i >= 8 {
        assert s[8..][i - 8] == s[i];
      }
    }
  }

  // ---------------------------------------------------------------- a worked example

  lemma ExampleImages()
    ensures Image(4, ScalarBits(0x0102_0304, 0), Little, 0) == [4, 3, 2, 1]
    ensures Image(4, ScalarBits(0x0102_0304, 0), Big, 0) == [1, 2, 3, 4]
    ensures Image(18, ScalarBits(0, 0x0A00_0000_0000_000B), Little, 7)
         == [0, 0, 0, 0, 0, 0, 0, 0, 11, 0, 0, 0, 0, 0, 0, 10, 7, 7]
  {
    assert ByteOf(0x0102_0304, 0) == 4 && ByteOf(0x0102_0304, 1) == 3 && ByteOf(0x0102_0304, 2) == 2 && ByteOf(0x0102_0304, 3) == 1;
    ZeroBytes();
    HighBytes();
    var image := Image(18, ScalarBits(0, 0x0A00_0000_0000_000B), Little, 7);
    hide ByteOf;
    forall p | 0 <= p < 18 ensures image[p] == [0, 0, 0, 0, 0, 0, 0, 0, 11, 0, 0, 0, 0, 0, 0, 10, 7, 7][p] {
    }
  }

  lemma ZeroBytes()
    ensures forall i :: 0 <= i < 8 ==> ByteOf(0, i) == 0
  {
  }

  lemma HighBytes()
    ensures var w := 0x0A00_0000_0000_000B;
            && ByteOf(w, 0) == 11 && ByteOf(w, 7) == 10
            && ByteOf(w, 1) == ByteOf(w, 2) == ByteOf(w, 3) == ByteOf(w, 4) == ByteOf(w, 5) == ByteOf(w, 6) == 0
  {
  }

  /** 0x01020304 in four bytes starts with its lowest byte in little-endian order, and with its highest in big-endian
      order; and is read back from both. */
  method WriteExample() returns (little: seq<bv8>, big: seq<bv8>, read: ScalarBits)
    ensures little == [4, 3, 2, 1] && big == [1, 2, 3, 4]
    ensures read.low == 0x0102_0304 && read.high == 0
  {
    hide Image, Reading, Truncated;
    var out := new bv8[4];
    ExampleImages();
    var bits := ScalarBits(0x0102_0304, 0);
    WriteScalarBits(out, 4, bits, Little, 0);
    little := out[..4];
    WriteScalarBits(out, 4, bits, Big, 0);
    big := out[..4];
    read := ReadScalarBits(big, Big);
    ReadAfterWrite(4, bits, Big, 0);
    assert Truncated(0x0102_0304, 4) == 0x0102_0304 && Truncated(0, 0) == 0 by { SmallTruncated(); }
  }

  lemma SmallTruncated()
    ensures Truncated(0x0102_0304, 4) == 0x0102_0304 && Truncated(0, 0) == 0
  {
  }
}
