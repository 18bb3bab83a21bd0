/** The incremental decoder of the chunked transfer coding, section 7.1 of RFC 9112
    (src/Dgps/src/ntripclient.cpp).
 */
module ChunkedDecoder {
  import opened Basics

  type Octets = seq<char>

  /** Failed: cstop was set. Overflowed: a sum in the computation of the size does not fit an int.
      Hangs: the loop runs for ever because mode 5 reads no input. */
  datatype Status = Running | Failed | Overflowed | Hangs

  /** chunkymode, chunksize and what has been written. */
  datatype State = State(mode: int, size: int, out: Octets, status: Status)

  const START := State(1, 0, [], Running)

  function HexValue(c: char): int {
    if '0' <= c <= '9' then c as int - '0' as int
    else if 'a' <= c <= 'f' then c as int - 'a' as int + 10
    else if 'A' <= c <= 'F' then c as int - 'A' as int + 10
    else -1
  }

  /** The next character of a size line. The character code is added before the code of the first
      digit of its kind is subtracted, so the largest intermediate sum has the code in it. */
  function SizeStep(s: State, size: int, c: char): State {
    if HexValue(c) >= 0 then
      if size * 16 + c as int > INT_MAX then s.(mode := 2, size := size, status := Overflowed)
      else s.(mode := 2, size := size * 16 + HexValue(c))
    else if c == '\r' then s.(mode := 3, size := size)
    else if c == ';' then s.(mode := 5, size := size)
    else s.(mode := 2, size := size, status := Failed)
  }

  /** What one byte of input does. */
  function Step(s: State, c: char): State {
    if s.status != Running then s
    else if s.mode == 1 then SizeStep(s, 0, c)
    else if s.mode == 2 then SizeStep(s, s.size, c)
    else if s.mode == 3 then (if c == '\n' then s.(mode := if s.size != 0 then 4 else 1) else s.(status := Failed))
    else if s.mode == 4 then s.(mode := if s.size == 1 then 1 else 4, size := s.size - 1, out := s.out + [c])
    else s.(status := Hangs)
  }

  function After(s: State, input: Octets): State {
    if input == [] then s else Step(After(s, input[..|input| - 1]), input[|input| - 1])
  }

  predicate Valid(s: State) {
    1 <= s.mode <= 5 && 0 <= s.size <= INT_MAX && (s.mode == 4 ==> s.size > 0) && (s.mode == 1 ==> s.size == 0)
  }

  /** In every state that a decoder reaches, mode 4 has something left to write. */
  lemma {:induction false} AlwaysValid(s: State, input: Octets)
    requires Valid(s)
    ensures Valid(After(s, input))
  {
    if input != [] {
      AlwaysValid(s, input[..|input| - 1]);
    }
  }

  lemma {:induction false} AfterAppend(s: State, a: Octets, b: Octets)
    ensures After(s, a + b) == After(After(s, a), b)
  {
    if b == [] {
      assert a + b == a;
    } else {
      AfterAppend(s, a, b[..|b| - 1]);
      assert (a + b)[..|a + b| - 1] == a + b[..|b| - 1];
    }
  }

  lemma AfterOne(s: State, c: char)
    ensures After(s, [c]) == Step(s, c)
  {
    assert [c][..0] == [];
  }

  /** Mode 4 after n more bytes of data. */
  function Wrote(s: State, data: Octets): State {
    s.(mode := if s.size == |data| then 1 else 4, size := s.size - |data|, out := s.out + data)
  }

  lemma WroteOne(s: State, front: Octets, c: char)
    requires s.status == Running && s.mode == 4 && |front| < s.size
    ensures Step(Wrote(s, front), c) == Wrote(s, front + [c])
  {
    assert s.out + (front + [c]) == (s.out + front) + [c];
  }

  lemma AfterSnoc(s: State, front: Octets, c: char)
    ensures After(s, front + [c]) == Step(After(s, front), c)
  {
    assert (front + [c])[..|front|] == front;
  }

  /** A part of the data of a chunk. */
  lemma {:induction false} DataStep(s: State, data: Octets)
    requires Valid(s) && s.status == Running && s.mode == 4 && |data| <= s.size
    ensures After(s, data) == Wrote(s, data)
    decreases |data|
  {
    if data == [] {
      assert s.out + data == s.out;
    } else {
      var front, c := data[..|data| - 1], data[|data| - 1];
      DataStep(s, front);
      WroteOne(s, front, c);
      AfterSnoc(s, front, c);
      assert front + [c] == data;
    }
  }

  /** Cases 1 and 2 of the switch. */
  method ReadSize(start: State, i: char) returns (s: State)
    requires Valid(start) && start.status == Running && start.mode <= 2
    ensures s == Step(start, i)
  {
    s := start;
    if s.mode == 1 {
      s := s.(size := 0, mode := 2);
    }
    if HexValue(i) >= 0 {
      if s.size * 16 + i as int > INT_MAX {
        s := s.(status := Overflowed);
      } else {
        s := s.(size := s.size * 16 + HexValue(i));
      }
    } else if i == '\r' {
      s := s.(mode := 3);
    } else if i == ';' {
      s := s.(mode := 5);
    } else {
      s := s.(status := Failed);
    }
  }

  /** Case 4 of the switch, for all the data that is there. */
  method WriteData(start: State, buf: Octets, from: nat) returns (s: State, pos: nat)
    requires Valid(start) && start.status == Running && start.mode == 4 && from < |buf|
    ensures from < pos <= |buf| && s == After(start, buf[from..pos])
  {
    s, pos := start, from;
    var i := |buf| - pos;
    if i > s.size {
      i := s.size;
    }
    DataStep(s, buf[pos..pos + i]);
    s := s.(out := s.out + buf[pos..pos + i], size := s.size - i);
    pos := pos + i;
    if s.size == 0 {
      s := s.(mode := 1);
    }
  }

  /** One turn of the loop. Mode 5 reads nothing, so the program does not get past it. */
  method Turn(start: State, buf: Octets, from: nat) returns (s: State, pos: nat)
    requires Valid(start) && start.status == Running && from < |buf|
    ensures from < pos <= |buf| && s == After(start, buf[from..pos])
  {
    s, pos := start, from + 1;
    assert buf[from..from + 1] == [buf[from]];
    AfterOne(start, buf[from]);
    if s.mode == 1 || s.mode == 2 {
      s := ReadSize(s, buf[from]);
    } else if s.mode == 3 {
      if buf[from] == '\n' {
        s := s.(mode := if s.size != 0 then 4 else 1);
      } else {
        s := s.(status := Failed);
      }
    } else if s.mode == 4 {
      s, pos := WriteData(start, buf, from);
    } else {
      s := s.(status := Hangs);
    }
  }

  /** The loop over one receive buffer: each turn consumes input. */
  method Receive(start: State, buf: Octets) returns (s: State)
    requires Valid(start)
    ensures s == After(start, buf) && Valid(s)
  {
    s := start;
    var pos := 0;
    while s.status == Running && pos < |buf|
      invariant 0 <= pos <= |buf| && Valid(s) && s == After(start, buf[..pos])
      decreases |buf| - pos
    {
      ghost var before := pos;
      s, pos := Turn(s, buf, pos);
      AfterAppend(start, buf[..before], buf[before..pos]);
      assert buf[..pos] == buf[..before] + buf[before..pos];
      AlwaysValid(start, buf[..pos]);
    }
    Stopped(s, buf[pos..]);
    AfterAppend(start, buf[..pos], buf[pos..]);
    assert buf == buf[..pos] + buf[pos..];
  }

  lemma {:induction false} Stopped(s: State, rest: Octets)
    requires s.status != Running || rest == []
    ensures After(s, rest) == s
  {
    if rest != [] {
      Stopped(s, rest[..|rest| - 1]);
    }
  }

  /** Any split of a stream into receive buffers. */
  method ReceiveAll(bufs: seq<Octets>) returns (s: State)
    ensures s == After(START, Joined(bufs)) && Valid(s)
  {
    s := START;
    for i := 0 to |bufs|
      invariant s == After(START, Joined(bufs[..i])) && Valid(s)
    {
      assert bufs[..i + 1][..i] == bufs[..i];
      AfterAppend(START, Joined(bufs[..i]), bufs[i]);
      s := Receive(s, bufs[i]);
    }
    assert bufs[..|bufs|] == bufs;
  }

  /* ---- how a size is spelled ---- */

  /** The last sum of the computation, which contains the code of the last digit, fits an int. */
  predicate Fits(text: Octets, n: nat)
    requires text != []
  {
    n - n % 16 + text[|text| - 1] as int <= INT_MAX
  }

  /** The line before a carriage return: nothing, which counts as 0, or the size. */
  predicate SizeLine(text: Octets, n: nat) {
    if text == [] then n == 0 else Spells(text, n) && Fits(text, n)
  }

  /** The digits of the program are those of the two alphabets. */
  lemma HexDigits(c: char)
    ensures forall d :: 0 <= d < 16 ==> HexValue(LOWER[d]) == d == HexValue(UPPER[d])
    ensures HexValue(c) != -1 ==> 0 <= HexValue(c) < 16 && (c == LOWER[HexValue(c)] || c == UPPER[HexValue(c)])
    ensures (forall d :: 0 <= d < 16 ==> c != LOWER[d] && c != UPPER[d]) ==> HexValue(c) == -1
  {
  }

  lemma DigitIff(c: char, d: int)
    requires 0 <= d < 16
    ensures c == LOWER[d] || c == UPPER[d] <==> HexValue(c) == d
  {
    HexDigits(c);
  }

  lemma {:induction false} SpellsIff(text: Octets, n: nat)
    ensures Spells(text, n) <==> text != [] && AllHex(text) && Value(text) == n
  {
    if text != [] {
      var front, c := text[..|text| - 1], text[|text| - 1];
      DigitIff(c, n % 16);
      assert AllHex(text) <==> AllHex(front) && HexValue(c) >= 0;
      HexDigits(c);
      if front != [] {
        SpellsIff(front, n / 16);
        SplitDigits(Value(front), HexValue(c), n);
      }
    }
  }

  lemma SplitDigits(front: int, digit: int, n: nat)
    requires digit < 16
    ensures front == n / 16 && digit == n % 16 ==> front * 16 + digit == n
    ensures digit >= 0 && front * 16 + digit == n ==> front == n / 16 && digit == n % 16
  {
  }

  lemma SizeLineIff(text: Octets, n: nat)
    ensures SizeLine(text, n) <==> AllHex(text) && Value(text) == n && Computable(text)
  {
    SpellsIff(text, n);
    if text != [] && AllHex(text) && Value(text) == n {
      ValueGrows(text, |text| - 1);
      HexDigits(text[|text| - 1]);
    }
  }

  /** Every size has a spelling of its own in each alphabet, and zeros may be put before it. */
  lemma {:induction false} Spelled(n: nat, upper: bool) returns (text: Octets)
    ensures Spells(text, n) && forall c :: c in text ==> c in if upper then UPPER else LOWER
  {
    var digits := if upper then UPPER else LOWER;
    if n < 16 {
      text := [digits[n]];
    } else {
      var front := Spelled(n / 16, upper);
      text := front + [digits[n % 16]];
      assert text[..|text| - 1] == front;
    }
  }

  lemma {:induction false} LeadingZero(text: Octets, n: nat)
    requires Spells(text, n)
    ensures Spells("0" + text, n)
  {
    assert ("0" + text)[..|text|] == "0" + text[..|text| - 1];
    if |text| > 1 {
      LeadingZero(text[..|text| - 1], n / 16);
    }
  }

  /* ---- what the decoder accepts ---- */

  /** A size line and as much data as it says. */
  datatype Unit = Unit(digits: Octets, data: Octets)

  function Value(digits: Octets): int {
    if digits == [] then 0 else Value(digits[..|digits| - 1]) * 16 + HexValue(digits[|digits| - 1])
  }

  predicate AllHex(digits: Octets) {
    forall i :: 0 <= i < |digits| ==> HexValue(digits[i]) >= 0
  }

  /** What the character code exceeds the value of the digit by. */
  function Excess(c: char): int {
    c as int - HexValue(c)
  }

  /** The size line can be computed in an int: the number it denotes stays below INT_MAX by the excess
      of its last digit, which is 48 for 0 to 9, 55 for A to F and 87 for a to f. */
  predicate Computable(digits: Octets) {
    digits == [] || Value(digits) + Excess(digits[|digits| - 1]) <= INT_MAX
  }

  predicate Proper(u: Unit) {
    SizeLine(u.digits, |u.data|)
  }

  function Text(u: Unit): Octets {
    u.digits + "\r\n" + u.data
  }

  function Texts(us: seq<Unit>): Octets {
    if us == [] then [] else Texts(us[..|us| - 1]) + Text(us[|us| - 1])
  }

  function Datas(us: seq<Unit>): Octets {
    if us == [] then [] else Datas(us[..|us| - 1]) + us[|us| - 1].data
  }

  lemma {:induction false} ValueGrows(digits: Octets, k: nat)
    requires AllHex(digits) && k <= |digits|
    ensures 0 <= Value(digits[..k]) <= Value(digits)
  {
    if k < |digits| {
      ValueGrows(digits[..|digits| - 1], k);
      assert digits[..|digits| - 1][..k] == digits[..k];
    } else {
      assert digits[..k] == digits;
      if digits != [] {
        ValueGrows(digits[..|digits| - 1], |digits| - 1);
        assert digits[..|digits| - 1][..|digits| - 1] == digits[..|digits| - 1];
      }
    }
  }

  lemma ExcessOf(c: char)
    requires HexValue(c) >= 0
    ensures Excess(c) == if c <= '9' then 48 else if c <= 'F' then 55 else 87
  {
  }

  /** If the whole line can be computed, so can what precedes its last digit. */
  lemma ComputableFront(digits: Octets)
    requires AllHex(digits) && digits != []
    ensures Computable(digits) ==> Computable(digits[..|digits| - 1])
    ensures Computable(digits) <==> Value(digits[..|digits| - 1]) * 16 + digits[|digits| - 1] as int <= INT_MAX
  {
    ValueGrows(digits, |digits| - 1);
    ExcessOf(digits[|digits| - 1]);
    if |digits| > 1 {
      ExcessOf(digits[|digits| - 2]);
      assert digits[..|digits| - 1][|digits| - 2] == digits[|digits| - 2];
    }
  }

  lemma {:induction false} DigitsRead(s: State, digits: Octets)
    requires Valid(s) && s.status == Running && s.mode == 1 && AllHex(digits) && digits != []
    ensures var t := After(s, digits);
      && t.mode == 2 && t.out == s.out
      && (Computable(digits) ==> t.status == Running && t.size == Value(digits))
      && (!Computable(digits) ==> t.status == Overflowed)
  {
    var front, c := digits[..|digits| - 1], digits[|digits| - 1];
    ComputableFront(digits);
    if front != [] {
      DigitsRead(s, front);
    } else {
      assert digits == [c];
      AfterOne(s, c);
    }
  }

  /** A size is read in every spelling, and overflows exactly when the last sum does not fit. */
  lemma SizeRead(s: State, digits: Octets, n: nat)
    requires Valid(s) && s.status == Running && s.mode == 1 && Spells(digits, n)
    ensures Fits(digits, n) ==> After(s, digits) == s.(mode := 2, size := n)
    ensures !Fits(digits, n) ==> After(s, digits).status == Overflowed && After(s, digits).out == s.out
  {
    SpellsIff(digits, n);
    SizeLineIff(digits, n);
    DigitsRead(s, digits);
  }

  /** Sizes up to INT_MAX - 87 are read in every spelling, and those above INT_MAX - 48 in none. */
  lemma SizeBounds(digits: Octets, n: nat)
    requires Spells(digits, n)
    ensures n <= INT_MAX - 87 ==> Fits(digits, n)
    ensures Fits(digits, n) ==> n <= INT_MAX - 48
  {
    HexDigits(digits[|digits| - 1]);
    SpellsIff(digits, n);
    ExcessOf(digits[|digits| - 1]);
  }

  lemma LineRead(s: State, u: Unit)
    requires Valid(s) && s.status == Running && s.mode == 1 && Proper(u)
    ensures After(s, u.digits + "\r\n") == s.(mode := if u.data == [] then 1 else 4, size := |u.data|)
  {
    SizeLineIff(u.digits, |u.data|);
    if u.digits != [] {
      DigitsRead(s, u.digits);
    }
    var t := After(s, u.digits);
    AfterOne(t, '\r');
    AfterAppend(s, u.digits, "\r");
    AfterOne(Step(t, '\r'), '\n');
    AfterAppend(s, u.digits + "\r", "\n");
    assert u.digits + "\r" + "\n" == u.digits + "\r\n";
  }

  lemma UnitRead(s: State, u: Unit)
    requires Valid(s) && s.status == Running && s.mode == 1 && Proper(u)
    ensures After(s, Text(u)) == s.(out := s.out + u.data)
  {
    LineRead(s, u);
    AfterAppend(s, u.digits + "\r\n", u.data);
    ProperFits(u);
    DataRead(s, u.data);
  }

  lemma ProperFits(u: Unit)
    requires Proper(u)
    ensures |u.data| <= INT_MAX
  {
    SizeLineIff(u.digits, |u.data|);
    if u.digits != [] {
      SizeBounds(u.digits, |u.data|);
    }
  }

  /** All the data of a chunk. */
  lemma DataRead(s: State, data: Octets)
    requires Valid(s) && s.status == Running && s.mode == 1 && |data| <= INT_MAX
    ensures After(s.(mode := if data == [] then 1 else 4, size := |data|), data) == s.(out := s.out + data)
  {
    if data == [] {
      assert s.out + data == s.out;
    } else {
      DataStep(s.(mode := 4, size := |data|), data);
    }
  }

  lemma {:induction false} UnitsRead(us: seq<Unit>)
    requires forall u :: u in us ==> Proper(u)
    ensures After(START, Texts(us)) == START.(out := Datas(us))
  {
    if us != [] {
      var front, u := us[..|us| - 1], us[|us| - 1];
      UnitsRead(front);
      AfterAppend(START, Texts(front), Text(u));
      UnitRead(START.(out := Datas(front)), u);
    }
  }

  /** How the input so far explains a running state: whole units, then the part of one. */
  ghost predicate Explains(input: Octets, s: State, us: seq<Unit>, digits: Octets, data: Octets) {
    && (forall u :: u in us ==> Proper(u)) && AllHex(digits) && Computable(digits) && s.out == Datas(us) + data
    && match s.mode
       case 1 => digits == data == [] && input == Texts(us)
       case 2 => digits != [] && data == [] && s.size == Value(digits) && input == Texts(us) + digits
       case 3 => data == [] && s.size == Value(digits) && input == Texts(us) + (digits + "\r")
       case 4 => |data| + s.size == Value(digits) && input == Texts(us) + (digits + "\r\n" + data)
       case _ => true
  }

  lemma DigitsSnoc(digits: Octets, c: char)
    requires AllHex(digits) && HexValue(c) >= 0
    ensures AllHex(digits + [c]) && Value(digits + [c]) == Value(digits) * 16 + HexValue(c)
    ensures Computable(digits + [c]) <==> Value(digits) * 16 + c as int <= INT_MAX
  {
    assert (digits + [c])[..|digits|] == digits;
    ComputableFront(digits + [c]);
  }

  lemma SizeExplained(input: Octets, s: State, c: char, us: seq<Unit>, digits: Octets) returns (digits': Octets)
    requires Valid(s) && s.status == Running && s.mode <= 2 && Explains(input, s, us, digits, [])
    requires Step(s, c).status == Running && Step(s, c).mode != 5
    ensures Explains(input + [c], Step(s, c), us, digits', [])
  {
    if HexValue(c) >= 0 {
      digits' := digits + [c];
      DigitsSnoc(digits, c);
      assert input + [c] == Texts(us) + digits';
    } else {
      digits' := digits;
      assert input + [c] == Texts(us) + (digits + "\r");
    }
  }

  lemma UnitExplained(us: seq<Unit>, u: Unit)
    ensures Texts(us + [u]) == Texts(us) + Text(u) && Datas(us + [u]) == Datas(us) + u.data
  {
    assert (us + [u])[..|us|] == us;
  }

  lemma StepExplained(input: Octets, s: State, c: char, us: seq<Unit>, digits: Octets, data: Octets)
    returns (us': seq<Unit>, digits': Octets, data': Octets)
    requires Valid(s) && s.status == Running && s.mode != 5 && Explains(input, s, us, digits, data)
    requires Step(s, c).status == Running && Step(s, c).mode != 5
    ensures Explains(input + [c], Step(s, c), us', digits', data')
  {
    us', digits', data' := us, digits, data;
    if s.mode <= 2 {
      digits' := SizeExplained(input, s, c, us, digits);
    } else if s.mode == 3 {
      if s.size == 0 {
        var u := Unit(digits, []);
        SizeLineIff(digits, 0);
        UnitExplained(us, u);
        us', digits' := us + [u], [];
        assert input + [c] == Texts(us) + Text(u);
        assert s.out == Datas(us) + [] == Datas(us') + [];
      } else {
        assert input + [c] == Texts(us) + (digits + "\r\n" + []);
      }
    } else {
      data' := data + [c];
      assert s.out + [c] == Datas(us) + data';
      assert input + [c] == Texts(us) + (digits + "\r\n" + data');
      if s.size == 1 {
        var u := Unit(digits, data');
        SizeLineIff(digits, |data'|);
        UnitExplained(us, u);
        us', digits', data' := us + [u], [], [];
        assert Datas(us') == Datas(us') + [];
      }
    }
  }

  lemma {:induction false} Explained(input: Octets) returns (us: seq<Unit>, digits: Octets, data: Octets)
    requires After(START, input).status == Running && After(START, input).mode != 5
    ensures Explains(input, After(START, input), us, digits, data)
  {
    if input == [] {
      us, digits, data := [], [], [];
    } else {
      var front, c := input[..|input| - 1], input[|input| - 1];
      AlwaysValid(START, front);
      assert After(START, front).status == Running && After(START, front).mode != 5;
      us, digits, data := Explained(front);
      us, digits, data := StepExplained(front, After(START, front), c, us, digits, data);
      assert front + [c] == input;
    }
  }

  predicate IsUnits(input: Octets, out: Octets, us: seq<Unit>) {
    (forall u :: u in us ==> Proper(u)) && input == Texts(us) && out == Datas(us)
  }

  /** The decoder stands between two chunks, having written `out`, exactly when the input is a
      sequence of size lines each followed by as much data as it says, and `out` is that data. */
  lemma AcceptedIff(input: Octets, out: Octets)
    ensures After(START, input) == START.(out := out) <==> exists us :: IsUnits(input, out, us)
  {
    if After(START, input) == START.(out := out) {
      var us, digits, data := Explained(input);
      assert Datas(us) + [] == Datas(us);
      assert IsUnits(input, out, us);
    }
    if us :| IsUnits(input, out, us) {
      UnitsRead(us);
    }
  }

  /* ---- well-formed streams ---- */

  /** A chunk of RFC 9112 without extensions; the size may be spelled with leading zeros and in
      either case. */
  predicate IsChunk(u: Unit) {
    Proper(u) && u.digits != [] && u.data != []
  }

  const CRLF := Unit([], [])

  /** Each chunk is followed by an empty line, and the last chunk has the size 0 and no trailer. */
  function ChunkStream(chunks: seq<Unit>, zeros: Octets): Octets {
    if chunks == [] then zeros + "\r\n" + "\r\n" else Text(chunks[0]) + "\r\n" + ChunkStream(chunks[1..], zeros)
  }

  function ChunkData(chunks: seq<Unit>): Octets {
    if chunks == [] then [] else chunks[0].data + ChunkData(chunks[1..])
  }

  /** A unit with the empty line after it. */
  lemma ChunkRead(s: State, u: Unit)
    requires Valid(s) && s.status == Running && s.mode == 1 && Proper(u)
    ensures After(s, Text(u) + "\r\n") == s.(out := s.out + u.data)
  {
    UnitRead(s, u);
    var t := After(s, Text(u));
    UnitRead(t, CRLF);
    assert Text(CRLF) == "\r\n";
    assert t.out + [] == t.out;
    AfterAppend(s, Text(u), "\r\n");
  }

  lemma LastRead(s: State, zeros: Octets)
    requires Valid(s) && s.status == Running && s.mode == 1 && SizeLine(zeros, 0)
    ensures After(s, zeros + "\r\n" + "\r\n") == s
  {
    var u := Unit(zeros, []);
    ChunkRead(s, u);
    assert Text(u) == zeros + "\r\n";
    assert s.out + [] == s.out;
  }

  predicate AllChunks(chunks: seq<Unit>) {
    forall u :: u in chunks ==> IsChunk(u)
  }

  /** The first chunk of a stream. */
  lemma FirstRead(s: State, u: Unit, rest: Octets)
    requires Valid(s) && s.status == Running && s.mode == 1 && Proper(u)
    ensures After(s, Text(u) + "\r\n" + rest) == After(s.(out := s.out + u.data), rest)
  {
    ChunkRead(s, u);
    AfterAppend(s, Text(u) + "\r\n", rest);
  }

  lemma StreamStep(s: State, chunks: seq<Unit>, zeros: Octets)
    requires Valid(s) && s.status == Running && s.mode == 1 && chunks != [] && Proper(chunks[0])
    ensures After(s, ChunkStream(chunks, zeros))
         == After(s.(out := s.out + chunks[0].data), ChunkStream(chunks[1..], zeros))
  {
    FirstRead(s, chunks[0], ChunkStream(chunks[1..], zeros));
  }

  lemma {:induction false} StreamRead(s: State, chunks: seq<Unit>, zeros: Octets)
    requires Valid(s) && s.status == Running && s.mode == 1
    requires AllChunks(chunks) && SizeLine(zeros, 0)
    ensures After(s, ChunkStream(chunks, zeros)) == s.(out := s.out + ChunkData(chunks))
    decreases |chunks|
  {
    if chunks == [] {
      LastRead(s, zeros);
      assert s.out + [] == s.out;
    } else {
      assert IsChunk(chunks[0]);
      StreamStep(s, chunks, zeros);
      StreamRead(s.(out := s.out + chunks[0].data), chunks[1..], zeros);
      assert (s.out + chunks[0].data) + ChunkData(chunks[1..]) == s.out + (chunks[0].data + ChunkData(chunks[1..]));
    }
  }

  /** For every split of a well-formed stream into receive buffers the output is the data. */
  lemma ChunkedRoundTrip(chunks: seq<Unit>, zeros: Octets, bufs: seq<Octets>)
    requires AllChunks(chunks) && SizeLine(zeros, 0)
    requires Joined(bufs) == ChunkStream(chunks, zeros)
    ensures After(START, Joined(bufs)) == START.(out := ChunkData(chunks))
  {
    StreamRead(START, chunks, zeros);
    assert [] + ChunkData(chunks) == ChunkData(chunks);
  }

  /* ---- the extensions ---- */

  /** Any extension makes the loop run for ever as soon as another byte arrives. */
  lemma ExtensionHangs(s: State, digits: Octets, n: nat, rest: Octets)
    requires Valid(s) && s.status == Running && s.mode == 1 && SizeLine(digits, n)
    ensures After(s, digits + ";") == s.(mode := 5, size := n)
    ensures rest != [] ==> After(s, digits + ";" + rest) == s.(mode := 5, size := n, status := Hangs)
  {
    if digits != [] {
      SizeRead(s, digits, n);
    }
    var t := After(s, digits + ";");
    AfterOne(After(s, digits), ';');
    AfterAppend(s, digits, ";");
    if rest != [] {
      AfterOne(t, rest[0]);
      Stopped(Step(t, rest[0]), rest[1..]);
      AfterAppend(t, [rest[0]], rest[1..]);
      assert [rest[0]] + rest[1..] == rest;
      AfterAppend(s, digits + ";", rest);
    }
  }

  /** Whole units, a size line, a semicolon, and at least one byte more. */
  predicate IsExtended(input: Octets, us: seq<Unit>, digits: Octets, n: nat, rest: Octets) {
    && (forall u :: u in us ==> Proper(u)) && SizeLine(digits, n)
    && rest != [] && input == Texts(us) + (digits + ";" + rest)
  }

  /** The only way into mode 5 is a semicolon in a size line. */
  lemma SemicolonExplained(front: Octets, c: char) returns (us: seq<Unit>, digits: Octets, n: nat)
    requires After(START, front + [c]).status == Running && After(START, front + [c]).mode == 5
    ensures (forall u :: u in us ==> Proper(u)) && SizeLine(digits, n)
    ensures front + [c] == Texts(us) + (digits + ";")
  {
    AfterSnoc(START, front, c);
    AlwaysValid(START, front);
    var data;
    us, digits, data := Explained(front);
    ValueGrows(digits, |digits|);
    n := Value(digits);
    SizeLineIff(digits, n);
    assert front + [c] == Texts(us) + (digits + ";");
  }

  lemma {:induction false} HangExplained(input: Octets)
    returns (us: seq<Unit>, digits: Octets, n: nat, rest: Octets)
    requires After(START, input).status == Hangs
    ensures IsExtended(input, us, digits, n, rest)
    decreases |input|
  {
    var front, c := input[..|input| - 1], input[|input| - 1];
    assert input == front + [c];
    AfterSnoc(START, front, c);
    AlwaysValid(START, front);
    if After(START, front).status == Hangs {
      us, digits, n, rest := HangExplained(front);
      assert Texts(us) + (digits + ";" + rest) + [c] == Texts(us) + (digits + ";" + (rest + [c]));
      rest := rest + [c];
    } else {
      var before, d := front[..|front| - 1], front[|front| - 1];
      assert front == before + [d];
      us, digits, n := SemicolonExplained(before, d);
      rest := [c];
      assert Texts(us) + (digits + ";") + [c] == Texts(us) + (digits + ";" + [c]);
    }
  }

  /** The loop runs for ever exactly when the input reaches a chunk extension at a place where a size
      line is read, with at least one byte after the semicolon. */
  lemma HangsIff(input: Octets)
    ensures After(START, input).status == Hangs
       <==> exists us, digits, n, rest :: IsExtended(input, us, digits, n, rest)
  {
    if After(START, input).status == Hangs {
      var us, digits, n, rest := HangExplained(input);
    }
    if us, digits, n, rest :| IsExtended(input, us, digits, n, rest) {
      UnitsRead(us);
      ExtensionHangs(START.(out := Datas(us)), digits, n, rest);
      AfterAppend(START, Texts(us), digits + ";" + rest);
    }
  }
}
