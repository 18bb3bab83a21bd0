/** The text form of a UWB frame (src/Master/src/uwb/UwbFramecodec.cpp). */
module UwbFrameCodec {
  import opened Basics

  /** A char of the serial line, which carries one byte. */
  type Octet = c: char | c as int < 256 witness 'a'
  type Octets = seq<Octet>

  datatype FrameType = DATA | ACK | HEARTBEAT

  datatype Frame = Frame(src: Byte, dst: Byte, seqNo: Byte, kind: FrameType, payload: Octets, checksum: Byte)

  const FRAME_HEADER: Octets := "[TS]"
  const MIN_FRAME_SIZE := 12
  const BROADCAST_ID: Byte := 255

  /** The largest payload that send_http_reliable accepts. */
  const MAX_PAYLOAD := 65535

  /* ---- checksum ---- */

  /** Bitwise exclusive or of the low `bits` bits. */
  function XorBits(a: nat, b: nat, bits: nat): (r: nat)
    decreases bits
  {
    if bits == 0 then 0 else 2 * XorBits(a / 2, b / 2, bits - 1) + (a % 2 + b % 2) % 2
  }

  function Xor(a: Byte, b: Byte): Byte {
    XorRange(a, b, 8);
    XorBits(a, b, 8)
  }

  function TypeCode(t: FrameType): Byte {
    match t
    case DATA => 0
    case ACK => 1
    case HEARTBEAT => 2
  }

  function FoldXor(start: Byte, payload: Octets): Byte {
    if payload == [] then start
    else Xor(FoldXor(start, payload[..|payload| - 1]), payload[|payload| - 1] as int)
  }

  function HeaderXor(f: Frame): Byte {
    Xor(Xor(Xor(Xor(0, f.src), f.dst), f.seqNo), TypeCode(f.kind))
  }

  function Checksum(f: Frame): Byte {
    FoldXor(HeaderXor(f), f.payload)
  }

  /** The constructor of TimeSlotFrame: the checksum is computed from the other fields. */
  function MakeFrame(src: Byte, dst: Byte, seqNo: Byte, kind: FrameType, payload: Octets): (f: Frame)
    ensures f.checksum == Checksum(f)
  {
    var f := Frame(src, dst, seqNo, kind, payload, 0);
    f.(checksum := Checksum(f))
  }

  method CalculateChecksum(f: Frame) returns (checksum: Byte)
    ensures checksum == Checksum(f)
  {
    checksum := 0;
    checksum := Xor(checksum, f.src);
    checksum := Xor(checksum, f.dst);
    checksum := Xor(checksum, f.seqNo);
    checksum := Xor(checksum, TypeCode(f.kind));
    for i := 0 to |f.payload|
      invariant checksum == FoldXor(HeaderXor(f), f.payload[..i])
    {
      assert f.payload[..i + 1][..i] == f.payload[..i];
      checksum := Xor(checksum, f.payload[i] as int);
    }
    assert f.payload[..|f.payload|] == f.payload;
  }

  predicate VerifyChecksum(f: Frame) {
    f.checksum == Checksum(f)
  }

  lemma {:induction false} XorRange(a: nat, b: nat, bits: nat)
    ensures XorBits(a, b, bits) < Pow2(bits)
  {
    if bits > 0 {
      XorRange(a / 2, b / 2, bits - 1);
    }
  }

  function Pow2(n: nat): nat {
    if n == 0 then 1 else 2 * Pow2(n - 1)
  }

  /** Equal results with one equal operand come from equal operands. */
  lemma {:induction false} XorBitsCancel(a: nat, b: nat, c: nat, bits: nat)
    requires a < Pow2(bits) && b < Pow2(bits)
    ensures XorBits(a, c, bits) == XorBits(b, c, bits) ==> a == b
    ensures XorBits(c, a, bits) == XorBits(c, b, bits) ==> a == b
  {
    if bits > 0 {
      XorBitsCancel(a / 2, b / 2, c / 2, bits - 1);
      LastBitCancels(a % 2, b % 2, c % 2);
      assert a == a / 2 * 2 + a % 2 && b == b / 2 * 2 + b % 2;
    }
  }

  lemma LastBitCancels(a: nat, b: nat, c: nat)
    requires a < 2 && b < 2 && c < 2
    ensures (a + c) % 2 == (b + c) % 2 ==> a == b
  {
  }

  lemma XorCancels(a: Byte, b: Byte, c: Byte)
    ensures Xor(a, c) == Xor(b, c) ==> a == b
    ensures Xor(c, a) == Xor(c, b) ==> a == b
  {
    assert Pow2(8) == 256;
    XorBitsCancel(a, b, c, 8);
  }

  lemma {:induction false} FoldXorCancels(a: Byte, b: Byte, payload: Octets)
    ensures FoldXor(a, payload) == FoldXor(b, payload) ==> a == b
  {
    if payload != [] {
      var n := |payload| - 1;
      FoldXorCancels(a, b, payload[..n]);
      XorCancels(FoldXor(a, payload[..n]), FoldXor(b, payload[..n]), payload[n] as int);
    }
  }

  lemma {:induction false} FoldXorAppend(start: Byte, p: Octets, q: Octets)
    ensures FoldXor(start, p + q) == FoldXor(FoldXor(start, p), q)
    decreases |q|
  {
    if q == [] {
      assert p + q == p;
    } else {
      var n := |q| - 1;
      assert (p + q)[..|p + q| - 1] == p + q[..n];
      FoldXorAppend(start, p, q[..n]);
    }
  }

  lemma FoldXorSingle(h: Byte, p: Octets, x: Octet)
    ensures FoldXor(h, p + [x]) == Xor(FoldXor(h, p), x as int)
  {
    assert (p + [x])[..|p|] == p;
  }

  lemma FoldXorDiffers(h: Byte, p: Octets, x: Octet, y: Octet, q: Octets)
    ensures FoldXor(h, p + [x] + q) == FoldXor(h, p + [y] + q) ==> x == y
  {
    FoldXorAppend(h, p + [x], q);
    FoldXorAppend(h, p + [y], q);
    FoldXorCancels(FoldXor(h, p + [x]), FoldXor(h, p + [y]), q);
    FoldXorSingle(h, p, x);
    FoldXorSingle(h, p, y);
    XorCancels(x as int, y as int, FoldXor(h, p));
  }

  /** A change of any single payload byte is noticed. */
  lemma PayloadCorruptionDetected(f: Frame, p: Octets, x: Octet, y: Octet, q: Octets)
    requires f.payload == p + [x] + q && x != y && VerifyChecksum(f)
    ensures !VerifyChecksum(f.(payload := p + [y] + q))
  {
    FoldXorDiffers(HeaderXor(f), p, x, y, q);
  }

  /** A change of any single header field is noticed. */
  lemma HeaderCorruptionDetected(f: Frame, g: Frame)
    requires VerifyChecksum(f) && f.payload == g.payload && f.checksum == g.checksum
    requires (f.src != g.src && f.dst == g.dst && f.seqNo == g.seqNo && f.kind == g.kind)
          || (f.src == g.src && f.dst != g.dst && f.seqNo == g.seqNo && f.kind == g.kind)
          || (f.src == g.src && f.dst == g.dst && f.seqNo != g.seqNo && f.kind == g.kind)
          || (f.src == g.src && f.dst == g.dst && f.seqNo == g.seqNo && f.kind != g.kind)
    ensures !VerifyChecksum(g)
  {
    FoldXorCancels(HeaderXor(f), HeaderXor(g), f.payload);
    var a, b := Xor(0, f.src), Xor(0, g.src);
    XorCancels(f.src, g.src, 0);
    XorCancels(a, b, f.dst);
    XorCancels(f.dst, g.dst, a);
    var a', b' := Xor(a, f.dst), Xor(b, g.dst);
    XorCancels(a', b', f.seqNo);
    XorCancels(f.seqNo, g.seqNo, a');
    var a'', b'' := Xor(a', f.seqNo), Xor(b', g.seqNo);
    XorCancels(a'', b'', TypeCode(f.kind));
    XorCancels(TypeCode(f.kind), TypeCode(g.kind), a'');
  }

  /* ---- what the checksum is ---- */

  /** Bit k of a byte. */
  predicate Bit(x: nat, k: nat) {
    if k == 0 then x % 2 == 1 else Bit(x / 2, k - 1)
  }

  lemma {:induction false} XorBitsByBit(a: nat, b: nat, bits: nat, k: nat)
    requires k < bits
    ensures Bit(XorBits(a, b, bits), k) <==> Bit(a, k) != Bit(b, k)
    decreases bits
  {
    var half := XorBits(a / 2, b / 2, bits - 1);
    Halved(half, (a % 2 + b % 2) % 2);
    if k > 0 {
      XorBitsByBit(a / 2, b / 2, bits - 1, k - 1);
    }
  }

  lemma Halved(half: nat, bit: nat)
    requires bit < 2
    ensures (2 * half + bit) / 2 == half && (2 * half + bit) % 2 == bit
  {
  }

  lemma XorByBit(a: Byte, b: Byte, k: nat)
    requires k < 8
    ensures Bit(Xor(a, b), k) <==> Bit(a, k) != Bit(b, k)
  {
    XorBitsByBit(a, b, 8, k);
  }

  /** Bit k is set in an odd number of the bytes. */
  predicate OddBit(bytes: seq<Byte>, k: nat) {
    if bytes == [] then false else OddBit(bytes[..|bytes| - 1], k) != Bit(bytes[|bytes| - 1], k)
  }

  function BytesOf(payload: Octets): seq<Byte> {
    seq(|payload|, i requires 0 <= i < |payload| => payload[i] as int)
  }

  /** The bytes that the checksum covers; the type counts as 0, 1 or 2. */
  function Covered(f: Frame): seq<Byte> {
    [f.src, f.dst, f.seqNo, if f.kind.DATA? then 0 else if f.kind.ACK? then 1 else 2] + BytesOf(f.payload)
  }

  lemma OddSnoc(bytes: seq<Byte>, b: Byte, k: nat)
    ensures OddBit(bytes + [b], k) <==> OddBit(bytes, k) != Bit(b, k)
  {
    assert (bytes + [b])[..|bytes|] == bytes;
  }

  lemma {:induction false} FoldXorParity(start: Byte, head: seq<Byte>, payload: Octets, k: nat)
    requires k < 8 && (Bit(start, k) <==> OddBit(head, k))
    ensures Bit(FoldXor(start, payload), k) <==> OddBit(head + BytesOf(payload), k)
  {
    if payload == [] {
      assert head + BytesOf(payload) == head;
    } else {
      var front, last := payload[..|payload| - 1], payload[|payload| - 1];
      FoldXorParity(start, head, front, k);
      XorByBit(FoldXor(start, front), last as int, k);
      OddSnoc(head + BytesOf(front), last as int, k);
      BytesSnoc(head, payload);
    }
  }

  lemma BytesSnoc(head: seq<Byte>, payload: Octets)
    requires payload != []
    ensures head + BytesOf(payload)
         == (head + BytesOf(payload[..|payload| - 1])) + [payload[|payload| - 1] as int]
  {
  }

  lemma {:induction false} NoBit(k: nat)
    ensures !Bit(0, k)
  {
    if k > 0 {
      NoBit(k - 1);
    }
  }

  lemma HeaderParity(f: Frame, k: nat)
    requires k < 8
    ensures Bit(HeaderXor(f), k) <==> OddBit(Covered(f)[..4], k)
  {
    var a := Xor(0, f.src);
    var b := Xor(a, f.dst);
    var c := Xor(b, f.seqNo);
    NoBit(k);
    XorByBit(0, f.src, k);
    XorByBit(a, f.dst, k);
    XorByBit(b, f.seqNo, k);
    XorByBit(c, TypeCode(f.kind), k);
    OddSnoc([], f.src, k);
    OddSnoc([f.src], f.dst, k);
    OddSnoc([f.src, f.dst], f.seqNo, k);
    OddSnoc([f.src, f.dst, f.seqNo], Covered(f)[3], k);
    assert [] + [f.src] == [f.src] && [f.src] + [f.dst] == [f.src, f.dst];
    assert [f.src, f.dst] + [f.seqNo] == [f.src, f.dst, f.seqNo];
    assert [f.src, f.dst, f.seqNo] + [Covered(f)[3]] == Covered(f)[..4];
  }

  /** Each bit of the checksum is the parity of that bit over the header fields and the payload. */
  lemma ChecksumParity(f: Frame, k: nat)
    requires k < 8
    ensures Bit(Checksum(f), k) <==> OddBit(Covered(f), k)
  {
    HeaderParity(f, k);
    FoldXorParity(HeaderXor(f), Covered(f)[..4], f.payload, k);
    assert Covered(f)[..4] + BytesOf(f.payload) == Covered(f);
  }

  /* ---- hexadecimal ---- */

  function Digit(n: int): Octet
    requires 0 <= n < 16
  {
    if n < 10 then (n + '0' as int) as char else (n - 10 + 'A' as int) as char
  }

  function ToHex2(b: Byte): Octets {
    [Digit(b / 16), Digit(b % 16)]
  }

  function ToHex4(w: int): Octets
    requires 0 <= w < 65536
  {
    [Digit(w / 4096), Digit(w / 256 % 16), Digit(w / 16 % 16), Digit(w % 16)]
  }

  function DigitValue(c: char): Option<int> {
    if '0' <= c <= '9' then Some(c as int - '0' as int)
    else if 'A' <= c <= 'F' then Some(c as int - 'A' as int + 10)
    else if 'a' <= c <= 'f' then Some(c as int - 'a' as int + 10)
    else None
  }

  predicate IsSpace(c: char) {
    c == ' ' || 9 <= c as int <= 13
  }

  /** The value of the leading hexadecimal digits, continuing from `acc`. */
  function Digits(s: Octets, acc: nat): nat {
    if s == [] then acc
    else match DigitValue(s[0])
         case None => acc
         case Some(d) => Digits(s[1..], 16 * acc + d)
  }

  /** std::stoul with base 16: leading white space, an optional sign and an optional 0x are skipped,
      trailing text is ignored, and None stands for the exception when there is no digit. */
  function Stoul16(s: Octets): Option<int> {
    if s != [] && IsSpace(s[0]) then Stoul16(s[1..])
    else if s != [] && s[0] == '-' then
      match Unsigned16(s[1..])
      case None => None
      case Some(v) => Some(-v)
    else if s != [] && s[0] == '+' then Unsigned16(s[1..])
    else Unsigned16(s)
  }

  function Unsigned16(s: Octets): Option<int> {
    if |s| >= 3 && s[0] == '0' && (s[1] == 'x' || s[1] == 'X') && DigitValue(s[2]).Some? then Some(Digits(s[2..], 0))
    else if s != [] && DigitValue(s[0]).Some? then Some(Digits(s, 0))
    else None
  }

  /** static_cast<uint8_t> of the parsed value; % is never negative here. */
  function FromHexByte(s: Octets): Option<Byte> {
    match Stoul16(s)
    case None => None
    case Some(v) => Some(v % 256)
  }

  function FromHexWord(s: Octets): Option<int> {
    match Stoul16(s)
    case None => None
    case Some(v) => Some(v % 65536)
  }

  lemma DigitMeaning(n: int)
    requires 0 <= n < 16
    ensures DigitValue(Digit(n)) == Some(n)
    ensures !IsSpace(Digit(n)) && Digit(n) !in {'-', '+', 'x', 'X'}
  {
  }

  lemma DigitsStep(d: int, rest: Octets, acc: nat)
    requires 0 <= d < 16
    ensures Digits([Digit(d)] + rest, acc) == Digits(rest, 16 * acc + d)
  {
    DigitMeaning(d);
    assert ([Digit(d)] + rest)[1..] == rest;
  }

  lemma PlainHex(d: int, e: int, rest: Octets)
    requires 0 <= d < 16 && 0 <= e < 16
    ensures var s := [Digit(d)] + ([Digit(e)] + rest); Stoul16(s) == Some(Digits(s, 0))
  {
    DigitMeaning(d);
    DigitMeaning(e);
  }

  /* ---- the lenient parser ---- */

  predicate IsHex(c: char) {
    DigitValue(c).Some?
  }

  /** The digits are those of the two alphabets. */
  lemma HexChar(c: char, d: int)
    requires 0 <= d < 16
    ensures c == LOWER[d] || c == UPPER[d] <==> DigitValue(c) == Some(d)
  {
  }

  lemma HexOnly(c: char)
    ensures IsHex(c) ==> 0 <= DigitValue(c).value < 16
    ensures c !in LOWER && c !in UPPER ==> !IsHex(c)
  {
    if IsHex(c) {
      HexChar(c, DigitValue(c).value);
    }
  }

  predicate AllHex(s: Octets) {
    forall i :: 0 <= i < |s| ==> IsHex(s[i])
  }

  /** Digits are read up to the first character that is none. */
  lemma {:induction false} DigitsStop(digits: Octets, tail: Octets, acc: nat)
    requires AllHex(digits) && (tail != [] ==> !IsHex(tail[0]))
    ensures Digits(digits + tail, acc) == Digits(digits, acc)
  {
    if digits == [] {
      assert digits + tail == tail;
    } else {
      assert IsHex(digits[0]);
      assert (digits + tail)[1..] == digits[1..] + tail;
      DigitsStop(digits[1..], tail, 16 * acc + DigitValue(digits[0]).value);
    }
  }

  lemma {:induction false} DigitsSnoc(front: Octets, c: Octet, acc: nat)
    requires AllHex(front) && IsHex(c)
    ensures Digits(front + [c], acc) == 16 * Digits(front, acc) + DigitValue(c).value
  {
    if front == [] {
      assert front + [c] == [c] && [c][1..] == [];
    } else {
      assert IsHex(front[0]);
      assert (front + [c])[1..] == front[1..] + [c];
      DigitsSnoc(front[1..], c, 16 * acc + DigitValue(front[0]).value);
    }
  }

  /** Digits in either case, with leading zeros, are read as the number they spell. */
  lemma {:induction false} DigitsSpell(digits: Octets, n: nat)
    requires Spells(digits, n)
    ensures AllHex(digits) && Digits(digits, 0) == n
  {
    var front, c := digits[..|digits| - 1], digits[|digits| - 1];
    HexChar(c, n % 16);
    if front == [] {
      assert digits == [c] && [c][1..] == [];
    } else {
      DigitsSpell(front, n / 16);
      DigitsSnoc(front, c, 0);
      assert digits == front + [c];
    }
  }

  /** After the digits comes something that does not continue the number. */
  predicate Ends(tail: Octets) {
    tail != [] ==> tail[0] !in LOWER && tail[0] !in UPPER && tail[0] != 'x' && tail[0] != 'X'
  }

  lemma NoHexNext(tail: Octets)
    requires Ends(tail)
    ensures tail != [] ==> !IsHex(tail[0]) && tail[0] != 'x' && tail[0] != 'X'
  {
    if tail != [] {
      HexOnly(tail[0]);
    }
  }

  lemma PlainRead(digits: Octets, tail: Octets)
    requires AllHex(digits) && digits != [] && (tail != [] ==> !IsHex(tail[0]) && tail[0] != 'x' && tail[0] != 'X')
    ensures Unsigned16(digits + tail) == Some(Digits(digits, 0))
  {
    DigitsStop(digits, tail, 0);
    assert IsHex(digits[0]);
    var s := digits + tail;
    assert s[0] == digits[0];
    if |s| >= 2 {
      assert |digits| >= 2 ==> IsHex(digits[1]) && s[1] == digits[1];
      assert |digits| == 1 ==> s[1] == tail[0];
    }
  }

  lemma PrefixedRead(x: Octet, digits: Octets, tail: Octets)
    requires AllHex(digits) && digits != [] && (tail != [] ==> !IsHex(tail[0])) && (x == 'x' || x == 'X')
    ensures Unsigned16(['0', x] + (digits + tail)) == Some(Digits(digits, 0))
  {
    DigitsStop(digits, tail, 0);
    assert IsHex(digits[0]);
    var s := ['0', x] + (digits + tail);
    assert s[2..] == digits + tail && s[2] == digits[0];
  }

  lemma {:induction false} SpaceSkipped(spaces: Octets, s: Octets)
    requires forall c :: c in spaces ==> IsSpace(c)
    ensures Stoul16(spaces + s) == Stoul16(s)
  {
    if spaces == [] {
      assert spaces + s == s;
    } else {
      assert (spaces + s)[1..] == spaces[1..] + s;
      SpaceSkipped(spaces[1..], s);
    }
  }

  lemma SignRead(s: Octets)
    ensures Stoul16(['+'] + s) == Unsigned16(s)
    ensures Stoul16(['-'] + s) == match Unsigned16(s) case None => None case Some(v) => Some(-v)
  {
    assert (['+'] + s)[1..] == s && (['-'] + s)[1..] == s;
  }

  lemma SignedForms(spaces: Octets, s: Octets, v: int)
    requires (forall c :: c in spaces ==> IsSpace(c)) && Unsigned16(s) == Some(v) && s != [] && IsHex(s[0])
    ensures Stoul16(spaces + s) == Some(v) && Stoul16(spaces + (['+'] + s)) == Some(v)
    ensures Stoul16(spaces + (['-'] + s)) == Some(-v)
  {
    SpaceSkipped(spaces, s);
    SpaceSkipped(spaces, ['+'] + s);
    SpaceSkipped(spaces, ['-'] + s);
    SignRead(s);
  }

  /** Digits in either case, with leading zeros, are read as the number that they spell; before them white
      space, a sign and 0x are allowed, and other text after them is ignored. */
  lemma LenientParse(spaces: Octets, digits: Octets, n: nat, tail: Octets, x: Octet)
    requires (forall c :: c in spaces ==> IsSpace(c)) && Spells(digits, n) && Ends(tail) && (x == 'x' || x == 'X')
    ensures Stoul16(spaces + (digits + tail)) == Some(n)
    ensures Stoul16(spaces + (['0', x] + (digits + tail))) == Some(n)
    ensures Stoul16(spaces + (['+'] + (digits + tail))) == Some(n)
    ensures Stoul16(spaces + (['-'] + (digits + tail))) == Some(0 - n)
    ensures Stoul16(spaces + (['-'] + (['0', x] + (digits + tail)))) == Some(0 - n)
  {
    DigitsSpell(digits, n);
    NoHexNext(tail);
    PlainRead(digits, tail);
    PrefixedRead(x, digits, tail);
    assert IsHex(digits[0]);
    SignedForms(spaces, digits + tail, n);
    SignedForms(spaces, ['0', x] + (digits + tail), n);
  }

  /** Where no digit, sign or white space comes next there is no number. */
  lemma NoNumber(tail: Octets)
    requires Ends(tail) && (tail != [] ==> !IsSpace(tail[0]) && tail[0] != '-' && tail[0] != '+')
    ensures Stoul16(tail).None?
  {
    NoHexNext(tail);
  }

  /** The number is cut to the width of the field, negative ones by adding its range. */
  lemma CutToByte(s: Octets, v: int)
    requires Stoul16(s) == Some(v)
    ensures -256 < v < 256 ==> FromHexByte(s) == Some(if v < 0 then v + 256 else v)
  {
  }

  lemma CutToWord(s: Octets, v: int)
    requires Stoul16(s) == Some(v)
    ensures -65536 < v < 65536 ==> FromHexWord(s) == Some(if v < 0 then v + 65536 else v)
  {
  }

  lemma HexByteBack(b: Byte)
    ensures FromHexByte(ToHex2(b)) == Some(b)
  {
    TwoDigits(b / 16, b % 16);
    ByteDigits(b, b / 16, b % 16);
  }

  lemma TwoDigits(d: int, e: int)
    requires 0 <= d < 16 && 0 <= e < 16
    ensures Stoul16([Digit(d), Digit(e)]) == Some(16 * d + e)
  {
    var r: Octets := [Digit(e)] + [];
    assert [Digit(d), Digit(e)] == [Digit(d)] + r;
    PlainHex(d, e, []);
    DigitsStep(d, r, 0);
    DigitsStep(e, [], d);
  }

  lemma ByteDigits(b: Byte, d: int, e: int)
    requires d == b / 16 && e == b % 16
    ensures 16 * d + e == b && (16 * d + e) % 256 == b
  {
  }

  lemma HexWordBack(w: int)
    requires 0 <= w < 65536
    ensures FromHexWord(ToHex4(w)) == Some(w)
  {
    var d0, d1, d2, d3 := w / 4096, w / 256 % 16, w / 16 % 16, w % 16;
    FourDigits(d0, d1, d2, d3);
    WordDigits(w);
  }

  lemma FourDigits(d0: int, d1: int, d2: int, d3: int)
    requires 0 <= d0 < 16 && 0 <= d1 < 16 && 0 <= d2 < 16 && 0 <= d3 < 16
    ensures Stoul16([Digit(d0), Digit(d1), Digit(d2), Digit(d3)]) == Some(4096 * d0 + 256 * d1 + 16 * d2 + d3)
  {
    var r3: Octets := [Digit(d3)] + [];
    var r2: Octets := [Digit(d2)] + r3;
    var r1: Octets := [Digit(d1)] + r2;
    assert [Digit(d0), Digit(d1), Digit(d2), Digit(d3)] == [Digit(d0)] + r1;
    PlainHex(d0, d1, r2);
    DigitsStep(d0, r1, 0);
    DigitsStep(d1, r2, d0);
    DigitsStep(d2, r3, 16 * d0 + d1);
    DigitsStep(d3, [], 16 * (16 * d0 + d1) + d2);
  }

  lemma WordDigits(w: int)
    requires 0 <= w < 65536
    ensures 4096 * (w / 4096) + 256 * (w / 256 % 16) + 16 * (w / 16 % 16) + w % 16 == w
  {
    var a, b := w / 16, w / 256;
    assert a / 16 == b && b / 16 == w / 4096;
    assert w == 16 * a + w % 16 && a == 16 * b + a % 16 && b == 16 * (b / 16) + b % 16;
  }

  /* ---- frames ---- */

  function TypeString(t: FrameType): Octets {
    match t
    case DATA => "DAT"
    case ACK => "ACK"
    case HEARTBEAT => "HBT"
  }

  function StringType(s: Octets): Option<FrameType> {
    if s == "DAT" then Some(DATA)
    else if s == "ACK" then Some(ACK)
    else if s == "HBT" then Some(HEARTBEAT)
    else None
  }

  predicate CarriesPayload(t: FrameType) {
    t.DATA? || t.HEARTBEAT?
  }

  function Head(f: Frame): (r: Octets)
    ensures |r| == 13
  {
    FRAME_HEADER + ToHex2(f.src) + ToHex2(f.dst) + ToHex2(f.seqNo) + TypeString(f.kind)
  }

  function Encoded(f: Frame): Octets {
    Head(f)
    + (if CarriesPayload(f.kind) then ToHex4(|f.payload| % 65536) + f.payload else [])
    + ToHex2(f.checksum)
  }

  /** std::string::substr, for a position inside the string. */
  function Substr(s: Octets, pos: nat, n: nat): Octets
    requires pos <= |s|
  {
    if pos + n <= |s| then s[pos..pos + n] else s[pos..]
  }

  /** The last step of decode, with the payload already cut out. */
  function Checked(data: Octets, pos: nat, src: Byte, dst: Byte, seqNo: Byte, kind: FrameType,
          payload: Octets): Option<Frame> {
    if pos + 2 > |data| then None
    else match FromHexByte(Substr(data, pos, 2))
         case None => None
         case Some(c) =>
           var f := Frame(src, dst, seqNo, kind, payload, c);
           if VerifyChecksum(f) then Some(f) else None
  }

  function Decoded(data: Octets): Option<Frame> {
    if |data| < MIN_FRAME_SIZE || data[..4] != FRAME_HEADER then None
    else
      match (FromHexByte(Substr(data, 4, 2)), FromHexByte(Substr(data, 6, 2)), FromHexByte(Substr(data, 8, 2)),
             StringType(Substr(data, 10, 3)))
      case (Some(src), Some(dst), Some(seqNo), Some(kind)) =>
        DecodedBody(data, src, dst, seqNo, kind)
      case _ => None
  }

  /** The payload by its length field; two more bytes must follow. */
  function PayloadIn(data: Octets): Option<Octets>
    requires |data| >= 13
  {
    if 17 > |data| then None
    else match FromHexWord(Substr(data, 13, 4))
         case None => None
         case Some(length) => if 17 + length + 2 > |data| then None else Some(data[17..17 + length])
  }

  /** What follows the type. */
  function DecodedBody(data: Octets, src: Byte, dst: Byte, seqNo: Byte, kind: FrameType): Option<Frame>
    requires |data| >= 13
  {
    if !CarriesPayload(kind) then Checked(data, 13, src, dst, seqNo, kind, [])
    else match PayloadIn(data)
         case None => None
         case Some(payload) => Checked(data, 17 + |payload|, src, dst, seqNo, kind, payload)
  }

  /** The layout of the text, with the fields in upper-case hexadecimal. */
  lemma Layout(f: Frame)
    requires f.src == 0x1F && f.dst == 0xA2 && f.seqNo == 3 && f.checksum == 0xC0 && |f.payload| == 0x4B5D
    ensures f.kind.DATA? ==> Encoded(f) == "[TS]" + "1F" + "A2" + "03" + "DAT" + ("4B5D" + f.payload) + "C0"
    ensures f.kind.HEARTBEAT? ==> Encoded(f) == "[TS]" + "1F" + "A2" + "03" + "HBT" + ("4B5D" + f.payload) + "C0"
    ensures f.kind.ACK? ==> Encoded(f) == "[TS]" + "1F" + "A2" + "03" + "ACK" + "C0"
  {
    assert ToHex2(0x1F) == "1F" && ToHex2(0xA2) == "A2" && ToHex2(3) == "03" && ToHex2(0xC0) == "C0";
    assert ToHex4(0x4B5D) == "4B5D";
  }

  method Encode(f: Frame) returns (r: Octets)
    ensures r == Encoded(f)
  {
    var oss := FRAME_HEADER;
    oss := oss + ToHex2(f.src) + ToHex2(f.dst) + ToHex2(f.seqNo);
    oss := oss + TypeString(f.kind);
    if f.kind.DATA? || f.kind.HEARTBEAT? {
      oss := oss + ToHex4(|f.payload| % 65536);
      ghost var head := oss;
      for i := 0 to |f.payload|
        invariant oss == head + f.payload[..i]
      {
        oss := oss + [f.payload[i]];
      }
    }
    oss := oss + ToHex2(f.checksum);
    r := oss;
  }

  method Decode(data: Octets) returns (r: Option<Frame>)
    ensures r == Decoded(data)
  {
    if |data| < MIN_FRAME_SIZE || data[..4] != FRAME_HEADER {
      return None;
    }
    var pos := 4;
    var src := FromHexByte(Substr(data, pos, 2));
    pos := pos + 2;
    var dst := FromHexByte(Substr(data, pos, 2));
    pos := pos + 2;
    var seqNo := FromHexByte(Substr(data, pos, 2));
    pos := pos + 2;
    if src.None? || dst.None? || seqNo.None? {
      return None;
    }
    var kind := StringType(Substr(data, pos, 3));
    pos := pos + 3;
    if kind.None? {
      return None;
    }
    r := DecodeBody(data, Frame(src.value, dst.value, seqNo.value, kind.value, [], 0));
  }

  /** The part of decode after the type. */
  method DecodeBody(data: Octets, f: Frame) returns (r: Option<Frame>)
    requires |data| >= 13 && f.payload == []
    ensures r == DecodedBody(data, f.src, f.dst, f.seqNo, f.kind)
  {
    var pos, g := 13, f;
    if f.kind.DATA? || f.kind.HEARTBEAT? {
      var payload := CutPayload(data);
      if payload.None? {
        return None;
      }
      pos, g := 17 + |payload.value|, f.(payload := payload.value);
    }
    r := CheckSum(data, pos, g);
  }

  /** The length field and as many bytes as it says. */
  method CutPayload(data: Octets) returns (payload: Option<Octets>)
    requires |data| >= 13
    ensures payload == PayloadIn(data)
  {
    if 13 + 4 > |data| {
      return None;
    }
    var length := FromHexWord(Substr(data, 13, 4));
    if length.None? || 17 + length.value + 2 > |data| {
      return None;
    }
    payload := Some(data[17..17 + length.value]);
  }

  /** The last part of decode. */
  method CheckSum(data: Octets, pos: nat, f: Frame) returns (r: Option<Frame>)
    ensures r == Checked(data, pos, f.src, f.dst, f.seqNo, f.kind, f.payload)
  {
    if pos + 2 > |data| {
      return None;
    }
    var sum := FromHexByte(Substr(data, pos, 2));
    if sum.None? {
      return None;
    }
    var g := f.(checksum := sum.value);
    var expected := CalculateChecksum(g);
    r := if g.checksum == expected then Some(g) else None;
  }

  /** The frames that survive the line. */
  predicate Sendable(f: Frame) {
    VerifyChecksum(f) && |f.payload| < 65536 && (f.kind.ACK? ==> f.payload == [])
  }

  lemma HeadParts(f: Frame, rest: Octets)
    ensures var e := Head(f) + rest;
      && e[..4] == FRAME_HEADER && Substr(e, 4, 2) == ToHex2(f.src) && Substr(e, 6, 2) == ToHex2(f.dst)
      && Substr(e, 8, 2) == ToHex2(f.seqNo) && Substr(e, 10, 3) == TypeString(f.kind)
  {
  }

  lemma TailParts(head: Octets, length: Octets, payload: Octets, sum: Octets)
    requires |head| == 13 && |length| == 4 && |sum| == 2
    ensures var e := head + (length + payload) + sum;
      && |e| == 19 + |payload| && Substr(e, 13, 4) == length
      && e[17..17 + |payload|] == payload && Substr(e, 17 + |payload|, 2) == sum
  {
  }

  /** What decode accepts always carries a valid checksum and fits the length field. */
  lemma DecodedIsSendable(data: Octets)
    ensures Decoded(data).Some? ==> Sendable(Decoded(data).value)
  {
  }

  /** Decoding undoes encoding for exactly the sendable frames. */
  lemma DecodeEncode(f: Frame)
    ensures Decoded(Encoded(f)) == Some(f) <==> Sendable(f)
  {
    DecodedIsSendable(Encoded(f));
    if Sendable(f) {
      SendableSurvives(f);
    }
  }

  lemma SendableSurvives(f: Frame)
    requires Sendable(f)
    ensures Decoded(Encoded(f)) == Some(f)
  {
    HexByteBack(f.checksum);
    if CarriesPayload(f.kind) {
      var w := |f.payload| % 65536;
      SmallWord(|f.payload|, w);
      HexWordBack(w);
      PayloadAssembled(f, ToHex4(w), ToHex2(f.checksum));
    } else {
      AckAssembled(f, ToHex2(f.checksum));
    }
  }

  lemma SmallWord(n: nat, w: int)
    requires n < 65536 && w == n % 65536
    ensures w == n
  {
  }

  lemma HeadSurvives(f: Frame, rest: Octets)
    ensures var e := Head(f) + rest;
      && e[..4] == FRAME_HEADER && FromHexByte(Substr(e, 4, 2)) == Some(f.src)
      && FromHexByte(Substr(e, 6, 2)) == Some(f.dst)
      && FromHexByte(Substr(e, 8, 2)) == Some(f.seqNo) && Substr(e, 10, 3) == TypeString(f.kind)
  {
    HeadParts(f, rest);
    HexByteBack(f.src);
    HexByteBack(f.dst);
    HexByteBack(f.seqNo);
  }

  lemma PayloadAssembled(f: Frame, length: Octets, sum: Octets)
    requires Sendable(f) && CarriesPayload(f.kind) && |length| == 4 && |sum| == 2
    requires FromHexWord(length) == Some(|f.payload|) && FromHexByte(sum) == Some(f.checksum)
    ensures Decoded(Head(f) + (length + f.payload) + sum) == Some(f)
  {
    var e := Head(f) + (length + f.payload) + sum;
    Regrouped(Head(f), length + f.payload, sum);
    HeadSurvives(f, length + f.payload + sum);
    TailParts(Head(f), length, f.payload, sum);
    PayloadSurvives(e, f);
  }

  lemma Regrouped(a: Octets, b: Octets, c: Octets)
    ensures (a + b) + c == a + (b + c)
  {
  }

  lemma AckAssembled(f: Frame, sum: Octets)
    requires Sendable(f) && f.kind.ACK? && |sum| == 2 && FromHexByte(sum) == Some(f.checksum)
    ensures Decoded(Head(f) + [] + sum) == Some(f)
  {
    var e := Head(f) + [] + sum;
    assert e == Head(f) + sum;
    HeadSurvives(f, sum);
    assert Substr(e, 13, 2) == sum;
    AckSurvives(e, f);
  }

  lemma PayloadSurvives(e: Octets, f: Frame)
    requires Sendable(f) && CarriesPayload(f.kind) && |e| == 19 + |f.payload|
    requires e[..4] == FRAME_HEADER
    requires FromHexByte(Substr(e, 4, 2)) == Some(f.src) && FromHexByte(Substr(e, 6, 2)) == Some(f.dst)
    requires FromHexByte(Substr(e, 8, 2)) == Some(f.seqNo) && Substr(e, 10, 3) == TypeString(f.kind)
    requires FromHexWord(Substr(e, 13, 4)) == Some(|f.payload|) && e[17..17 + |f.payload|] == f.payload
    requires FromHexByte(Substr(e, 17 + |f.payload|, 2)) == Some(f.checksum)
    ensures Decoded(e) == Some(f)
  {
    assert StringType(TypeString(f.kind)) == Some(f.kind);
  }

  lemma AckSurvives(e: Octets, f: Frame)
    requires Sendable(f) && f.kind.ACK? && |e| == 15 && e[..4] == FRAME_HEADER
    requires FromHexByte(Substr(e, 4, 2)) == Some(f.src) && FromHexByte(Substr(e, 6, 2)) == Some(f.dst)
    requires FromHexByte(Substr(e, 8, 2)) == Some(f.seqNo) && Substr(e, 10, 3) == TypeString(f.kind)
    requires FromHexByte(Substr(e, 13, 2)) == Some(f.checksum)
    ensures Decoded(e) == Some(f)
  {
    assert StringType(TypeString(f.kind)) == Some(f.kind);
  }
}
