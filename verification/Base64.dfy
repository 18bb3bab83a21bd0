/** The Base64 credentials of the NTRIP client (src/Dgps/src/ntripclient.cpp): section 4 of
    RFC 4648 and section 2 of RFC 7617.
 */
module Base64 {
  import opened Basics

  /** A char of a C string. */
  type CChar = c: char | 0 < c as int < 256 witness 'a'
  type CString = seq<CChar>

  /* ---- the encoding as a function ---- */

  /** encodingTable. */
  function Symbol(n: int): char
    requires 0 <= n < 64
  {
    if n < 26 then (n + 'A' as int) as char
    else if n < 52 then (n - 26 + 'a' as int) as char
    else if n < 62 then (n - 52 + '0' as int) as char
    else if n == 62 then '+'
    else '/'
  }

  /** The four output characters of a group whose last `fill` bytes are padding. */
  function Quad(a: Byte, b: Byte, c: Byte, fill: int): (r: seq<char>)
    ensures |r| == 4
  {
    [Symbol(a / 4), Symbol(a % 4 * 16 + b / 16),
     if fill == 2 then '=' else Symbol(b % 16 * 4 + c / 64),
     if fill >= 1 then '=' else Symbol(c % 64)]
  }

  function Bytes(s: CString): seq<Byte> {
    seq(|s|, i requires 0 <= i < |s| => s[i] as int)
  }

  function Encoded(x: seq<Byte>): seq<char> {
    if x == [] then []
    else if |x| == 1 then Quad(x[0], 0, 0, 2)
    else if |x| == 2 then Quad(x[0], x[1], 0, 1)
    else Quad(x[0], x[1], x[2], 0) + Encoded(x[3..])
  }

  const CAPITALS := "ABCDEFGHIJKLMNOPQRSTUVWXYZ"
  const SMALL := "abcdefghijklmnopqrstuvwxyz"
  const REST := "0123456789+/"

  lemma Capital(n: int)
    requires 0 <= n < 26
    ensures CAPITALS[n] == (n + 'A' as int) as char
  {
  }

  lemma Small(n: int)
    requires 0 <= n < 26
    ensures SMALL[n] == (n + 'a' as int) as char
  {
  }

  /** Table 1 of RFC 4648. */
  lemma SymbolIsTable(n: int)
    requires 0 <= n < 64
    ensures Symbol(n) == (CAPITALS + SMALL + REST)[n]
  {
    if n < 26 {
      Capital(n);
    } else if n < 52 {
      Small(n - 26);
    } else {
      assert (CAPITALS + SMALL + REST)[n] == REST[n - 52];
    }
  }

  /** The test vectors of section 10 of RFC 4648. */
  lemma TestVectors()
    ensures Encoded(Bytes("f")) == "Zg==" && Encoded(Bytes("fo")) == "Zm8=" && Encoded(Bytes("foo")) == "Zm9v"
    ensures Encoded(Bytes("foobar")) == "Zm9vYmFy"
  {
    var foo, bar := [102, 111, 111], [98, 97, 114];
    assert Bytes("foo") == foo && Bytes("foobar") == foo + bar && (foo + bar)[3..] == bar;
    assert Encoded([]) == [] && foo[3..] == [] && bar[3..] == [];
    assert Quad(102, 111, 111, 0) == "Zm9v" && Quad(98, 97, 114, 0) == "YmFy";
    assert Quad(102, 0, 0, 2) == "Zg==" && Quad(102, 111, 0, 1) == "Zm8=";
  }

  /* ---- decoding, section 4 of RFC 4648 ---- */

  function SymbolValue(c: char): int {
    if 'A' <= c <= 'Z' then c as int - 'A' as int
    else if 'a' <= c <= 'z' then c as int - 'a' as int + 26
    else if '0' <= c <= '9' then c as int - '0' as int + 52
    else if c == '+' then 62
    else if c == '/' then 63
    else -1
  }

  /** One group of four characters; padding must hide only zero bits. */
  function DecodedQuad(q: seq<char>, last: bool): Option<seq<Byte>>
    requires |q| == 4
  {
    var (a, b, c, d) := (SymbolValue(q[0]), SymbolValue(q[1]), SymbolValue(q[2]), SymbolValue(q[3]));
    if a < 0 || b < 0 then None
    else if last && q[2] == '=' && q[3] == '=' then (if b % 16 == 0 then Some([a * 4 + b / 16]) else None)
    else if c < 0 then None
    else if last && q[3] == '=' then (if c % 4 == 0 then Some([a * 4 + b / 16, b % 16 * 16 + c / 4]) else None)
    else if d < 0 then None
    else Some([a * 4 + b / 16, b % 16 * 16 + c / 4, c % 4 * 64 + d])
  }

  function Decoded(s: seq<char>): Option<seq<Byte>> {
    if s == [] then Some([])
    else if |s| < 4 then None
    else match DecodedQuad(s[..4], |s| == 4)
         case None => None
         case Some(x) =>
           match Decoded(s[4..])
           case None => None
           case Some(y) => Some(x + y)
  }

  lemma SymbolBack(n: int)
    requires 0 <= n < 64
    ensures SymbolValue(Symbol(n)) == n && Symbol(n) != '='
  {
  }

  lemma SixBits(a: Byte, b: Byte)
    ensures var s, t := a % 4 * 16 + b / 16, b % 16;
      0 <= s < 64 && s / 16 == a % 4 && s % 16 == b / 16 && a / 4 * 4 + s / 16 == a && s % 16 * 16 + t == b
  {
  }

  lemma SixBitsLow(b: Byte, c: Byte)
    ensures var s := b % 16 * 4 + c / 64;
      0 <= s < 64 && s / 4 == b % 16 && s % 4 == c / 64 && s % 4 * 64 + c % 64 == c
  {
  }

  lemma SymbolsBack(a: Byte, b: Byte, c: Byte)
    ensures SymbolValue(Symbol(a / 4)) == a / 4
    ensures SymbolValue(Symbol(a % 4 * 16 + b / 16)) == a % 4 * 16 + b / 16
    ensures SymbolValue(Symbol(b % 16 * 4 + c / 64)) == b % 16 * 4 + c / 64 && Symbol(b % 16 * 4 + c / 64) != '='
    ensures SymbolValue(Symbol(c % 64)) == c % 64 && Symbol(c % 64) != '='
  {
    SymbolBack(a / 4);
    SymbolBack(a % 4 * 16 + b / 16);
    SymbolBack(b % 16 * 4 + c / 64);
    SymbolBack(c % 64);
  }

  lemma FullQuadBack(a: Byte, b: Byte, c: Byte, last: bool)
    ensures DecodedQuad(Quad(a, b, c, 0), last) == Some([a, b, c])
  {
    SymbolsBack(a, b, c);
    SixBits(a, b);
    SixBitsLow(b, c);
  }

  lemma OneByteBack(a: Byte)
    ensures DecodedQuad(Quad(a, 0, 0, 2), true) == Some([a])
  {
    SymbolsBack(a, 0, 0);
    SixBits(a, 0);
  }

  lemma TwoBytesBack(a: Byte, b: Byte)
    ensures DecodedQuad(Quad(a, b, 0, 1), true) == Some([a, b])
  {
    SymbolsBack(a, b, 0);
    SixBits(a, b);
    SixBitsLow(b, 0);
  }

  lemma LastQuad(q: seq<char>, x: seq<Byte>)
    requires |q| == 4 && DecodedQuad(q, true) == Some(x)
    ensures Decoded(q) == Some(x)
  {
    assert q[..4] == q && q[4..] == [];
    assert Decoded([]) == Some([]);
    assert x + [] == x;
  }

  lemma FirstQuad(q: seq<char>, rest: seq<char>, x: seq<Byte>, y: seq<Byte>)
    requires |q| == 4 && DecodedQuad(q, false) == Some(x) && rest != [] && Decoded(rest) == Some(y)
    ensures Decoded(q + rest) == Some(x + y)
  {
    assert (q + rest)[..4] == q && (q + rest)[4..] == rest;
  }

  predicate Inverts(x: seq<Byte>) {
    Decoded(Encoded(x)) == Some(x) && Encoded(x) != []
  }

  lemma OneBack(x: seq<Byte>, a: Byte)
    requires x == [a]
    ensures Inverts(x)
  {
    OneByteBack(a);
    LastQuad(Quad(a, 0, 0, 2), x);
  }

  lemma TwoBack(x: seq<Byte>, a: Byte, b: Byte)
    requires x == [a, b]
    ensures Inverts(x)
  {
    TwoBytesBack(a, b);
    LastQuad(Quad(a, b, 0, 1), x);
  }

  lemma ThreeBack(x: seq<Byte>, a: Byte, b: Byte, c: Byte)
    requires x == [a, b, c]
    ensures Inverts(x)
  {
    FullQuadBack(a, b, c, true);
    LastQuad(Quad(a, b, c, 0), x);
    assert x[3..] == [] && Encoded([]) == [];
    assert Encoded(x) == Quad(a, b, c, 0);
  }

  lemma LastGroupBack(x: seq<Byte>)
    requires 0 < |x| <= 3
    ensures Inverts(x)
  {
    if |x| == 1 {
      OneBack(x, x[0]);
    } else if |x| == 2 {
      TwoBack(x, x[0], x[1]);
    } else {
      ThreeBack(x, x[0], x[1], x[2]);
    }
  }

  lemma Three(x: seq<Byte>, rest: seq<Byte>)
    requires |x| > 3 && rest == x[3..]
    ensures x == [x[0], x[1], x[2]] + rest && Encoded(x) == Quad(x[0], x[1], x[2], 0) + Encoded(rest)
  {
  }

  lemma FirstGroupBack(x: seq<Byte>, rest: seq<Byte>)
    requires |x| > 3 && rest == x[3..] && Inverts(rest)
    ensures Inverts(x)
  {
    var q, front := Quad(x[0], x[1], x[2], 0), [x[0], x[1], x[2]];
    Three(x, rest);
    FullQuadBack(x[0], x[1], x[2], false);
    FirstQuad(q, Encoded(rest), front, rest);
  }

  /** Decoding inverts encoding for every byte sequence. */
  lemma {:induction false} DecodeEncode(x: seq<Byte>)
    ensures Decoded(Encoded(x)) == Some(x)
    ensures x != [] ==> Encoded(x) != []
    decreases |x|
  {
    if 0 < |x| <= 3 {
      LastGroupBack(x);
    } else if x != [] {
      DecodeEncode(x[3..]);
      FirstGroupBack(x, x[3..]);
    }
  }

  lemma {:induction false} EncodedLength(x: seq<Byte>)
    ensures |Encoded(x)| == (|x| + 2) / 3 * 4
    decreases |x|
  {
    if |x| >= 3 {
      EncodedLength(x[3..]);
      OneGroupMore(|x|);
    }
  }

  lemma OneGroupMore(n: int)
    requires n >= 3
    ensures (n + 2) / 3 == (n - 3 + 2) / 3 + 1
  {
  }

  /* ---- the function as it is written ---- */

  /** The bytes that the loop has still to encode: the separator is not reached when the password
      is empty and the rest of the user name fills whole groups. */
  function Rest(user: CString, pwd: CString, sep: bool): seq<Byte> {
    if sep then Bytes(pwd)
    else if pwd == [] && |user| % 3 == 0 then Bytes(user)
    else Bytes(user) + [':' as int] + Bytes(pwd)
  }

  /** An inner loop: as many bytes of the string as inbuf has room for. */
  method Fill(inbuf: seq<Byte>, s: CString) returns (inbuf': seq<Byte>, s': CString)
    requires |inbuf| <= 3
    ensures inbuf' + Bytes(s') == inbuf + Bytes(s) && |inbuf| <= |inbuf'| <= 3 && (|inbuf'| < 3 ==> s' == [])
    ensures |inbuf'| + |s'| == |inbuf| + |s| && (|inbuf| == 3 ==> inbuf' == inbuf && s' == s)
  {
    inbuf', s' := inbuf, s;
    while |inbuf'| < 3 && s' != []
      invariant |inbuf| <= |inbuf'| <= 3 && |inbuf'| + |s'| == |inbuf| + |s|
      invariant (|inbuf| == 3 ==> inbuf' == inbuf && s' == s)
      invariant inbuf' + Bytes(s') == inbuf + Bytes(s)
      decreases |s'|
    {
      assert Bytes(s') == [s'[0] as int] + Bytes(s'[1..]);
      inbuf', s' := inbuf' + [s'[0] as int], s'[1..];
    }
  }

  lemma Join(a: seq<Byte>, b: seq<Byte>, c: seq<Byte>)
    ensures (a + b) + c == a + (b + c)
  {
  }

  lemma ThreeTaken(inbuf: seq<Byte>, user: CString, user': CString, pwd: CString)
    requires inbuf + Bytes(user') == Bytes(user) && |user'| + 3 == |user|
    ensures inbuf + Rest(user', pwd, false) == Rest(user, pwd, false)
  {
    if pwd != [] || |user| % 3 != 0 {
      Join(inbuf, Bytes(user'), [':' as int] + Bytes(pwd));
      Join(Bytes(user), [':' as int], Bytes(pwd));
      Join(Bytes(user'), [':' as int], Bytes(pwd));
    }
  }

  /** The bytes of the next group: three of what is left, or all of it. */
  method NextGroup(user: CString, pwd: CString, sep: bool)
    returns (inbuf: seq<Byte>, user': CString, pwd': CString, sep': bool)
    requires (user != [] || pwd != []) && (sep ==> user == [])
    ensures 0 < |inbuf| <= 3 && inbuf + Rest(user', pwd', sep') == Rest(user, pwd, sep)
    ensures (sep' ==> user' == []) && (|inbuf| < 3 ==> user' == [] && pwd' == [] && sep')
    ensures |user'| + |pwd'| < |user| + |pwd|
  {
    sep', pwd' := sep, pwd;
    inbuf, user' := Fill([], user);
    assert [] + Bytes(user) == Bytes(user);
    if |inbuf| == 3 {
      ThreeTaken(inbuf, user, user', pwd);
    } else {
      assert inbuf == Bytes(user);
    }
    if |inbuf| < 3 && !sep' {
      inbuf, sep' := inbuf + [':' as int], true;
    }
    inbuf, pwd' := Fill(inbuf, pwd');
  }

  /* ---- writing ---- */

  /** What fits into a buffer of the given size beside the closing NUL. */
  function Fitting(text: seq<char>, size: int): seq<char> {
    if |text| <= size - 1 then text else if size <= 0 then [] else text[..size - 1]
  }

  /** The buffer holds as much of the text as fits, and nothing at or after `size` was touched. */
  ghost predicate Holds(now: seq<char>, was: seq<char>, size: int, text: seq<char>) {
    var n := |Fitting(text, size)|;
    && |now| == |was| && n <= |now| && now[..n] == Fitting(text, size)
    && forall k :: n <= k < |now| ==> now[k] == was[k]
  }

  /** `if (out - buf < size - 1) *(out++) = c;` */
  method Put(buf: array<char>, size: int, out: nat, c: char, ghost was: seq<char>, ghost text: seq<char>)
    returns (out': nat)
    requires size <= buf.Length && out == |Fitting(text, size)| && Holds(buf[..], was, size, text)
    modifies buf
    ensures out' == |Fitting(text + [c], size)| && Holds(buf[..], was, size, text + [c])
  {
    out' := out;
    if out' < size - 1 {
      buf[out'] := c;
      out' := out' + 1;
    }
  }

  method PutQuad(buf: array<char>, size: int, out: nat, q: seq<char>, ghost was: seq<char>, ghost text: seq<char>)
    returns (out': nat)
    requires |q| == 4 && size <= buf.Length && out == |Fitting(text, size)| && Holds(buf[..], was, size, text)
    modifies buf
    ensures out' == |Fitting(text + q, size)| && Holds(buf[..], was, size, text + q)
  {
    out' := Put(buf, size, out, q[0], was, text);
    out' := Put(buf, size, out', q[1], was, text + [q[0]]);
    out' := Put(buf, size, out', q[2], was, text + [q[0]] + [q[1]]);
    out' := Put(buf, size, out', q[3], was, text + [q[0]] + [q[1]] + [q[2]]);
    assert text + [q[0]] + [q[1]] + [q[2]] + [q[3]] == text + q;
  }

  lemma GroupEncoded(left: seq<Byte>, group: seq<Byte>, rest: seq<Byte>, inbuf: seq<Byte>, fill: nat)
    requires left == group + rest && 0 < |group| <= 3 && (|group| < 3 ==> rest == []) && fill == 3 - |group|
    requires |inbuf| == 3 && inbuf[..|group|] == group && forall k :: |group| <= k < 3 ==> inbuf[k] == 0
    ensures Encoded(left) == Quad(inbuf[0], inbuf[1], inbuf[2], fill) + Encoded(rest)
  {
    if |group| == 3 {
      assert left[3..] == rest;
    } else {
      assert left == group;
    }
    assert group[0] == inbuf[0];
  }

  lemma TextGrows(text: seq<char>, left: seq<Byte>, group: seq<Byte>, rest: seq<Byte>, inbuf: seq<Byte>, fill: nat,
          q: seq<char>)
    requires left == group + rest && 0 < |group| <= 3 && (|group| < 3 ==> rest == []) && fill == 3 - |group|
    requires |inbuf| == 3 && inbuf[..|group|] == group && forall k :: |group| <= k < 3 ==> inbuf[k] == 0
    requires q == Quad(inbuf[0], inbuf[1], inbuf[2], fill)
    ensures (text + q) + Encoded(rest) == text + Encoded(left)
  {
    GroupEncoded(left, group, rest, inbuf, fill);
    var e := Encoded(rest);
    assert (text + q) + e == text + (q + e);
  }

  /** The remaining bytes of inbuf are zero. */
  method Pad(group: seq<Byte>) returns (inbuf: seq<Byte>, fill: nat)
    requires 0 < |group| <= 3
    ensures |inbuf| == 3 && inbuf[..|group|] == group && fill == 3 - |group|
    ensures forall k :: |group| <= k < 3 ==> inbuf[k] == 0
  {
    inbuf, fill := group, 0;
    while |inbuf| < 3
      invariant |group| <= |inbuf| <= 3 && fill == |inbuf| - |group| && inbuf[..|group|] == group
      invariant forall k :: |group| <= k < |inbuf| ==> inbuf[k] == 0
    {
      inbuf, fill := inbuf + [0], fill + 1;
    }
  }

  /** The credentials that are encoded. */
  function Input(user: CString, pwd: CString): seq<Byte> {
    Rest(user, pwd, false)
  }

  /** One turn of the loop. */
  method Turn(buf: array<char>, size: int, out: nat, user: CString, pwd: CString, sep: bool, ghost was: seq<char>,
          ghost text: seq<char>)
    returns (out': nat, user': CString, pwd': CString, sep': bool, ghost text': seq<char>)
    requires (user != [] || pwd != []) && (sep ==> user == [])
    requires size <= buf.Length && out == |Fitting(text, size)| && Holds(buf[..], was, size, text)
    modifies buf
    ensures out' == |Fitting(text', size)| && Holds(buf[..], was, size, text') && |text'| == |text| + 4
    ensures text' + Encoded(Rest(user', pwd', sep')) == text + Encoded(Rest(user, pwd, sep))
    ensures (sep' ==> user' == []) && |user'| + |pwd'| < |user| + |pwd|
  {
    var group;
    group, user', pwd', sep' := NextGroup(user, pwd, sep);
    var inbuf, fill := Pad(group);
    var q := Quad(inbuf[0], inbuf[1], inbuf[2], fill);
    TextGrows(text, Rest(user, pwd, sep), group, Rest(user', pwd', sep'), inbuf, fill, q);
    out' := PutQuad(buf, size, out, q, was, text);
    text' := text + q;
  }

  /** The loop, without the closing NUL. */
  method PutAll(buf: array<char>, size: int, user: CString, pwd: CString) returns (bytes: int, out: nat)
    requires size <= buf.Length
    modifies buf
    ensures var text := Encoded(Input(user, pwd));
      bytes == |text| && out == |Fitting(text, size)| && Holds(buf[..], old(buf[..]), size, text)
  {
    var u, p, sep := user, pwd, false;
    bytes, out := 0, 0;
    ghost var text := [];
    while u != [] || p != []
      invariant sep ==> u == []
      invariant text + Encoded(Rest(u, p, sep)) == Encoded(Input(user, pwd)) && bytes == |text|
      invariant out == |Fitting(text, size)| && Holds(buf[..], old(buf[..]), size, text)
      decreases |u| + |p|
    {
      out, u, p, sep, text := Turn(buf, size, out, u, p, sep, old(buf[..]), text);
      bytes := bytes + 4;
    }
    assert Rest(u, p, sep) == [];
    assert text + [] == text;
  }

  /** The text is written as far as it fits and closed by NUL; nothing at or beyond `size` is
      touched; and the result is the length of the whole text. */
  method Encode(buf: array<char>, size: int, user: CString, pwd: CString) returns (bytes: int)
    requires size <= buf.Length
    modifies buf
    ensures bytes == |Encoded(Input(user, pwd))|
    ensures var text := Encoded(Input(user, pwd));
      var n := if |text| < size then |text| else if size > 0 then size - 1 else 0;
      n <= buf.Length && buf[..n] == text[..n]
    ensures var text := Fitting(Encoded(Input(user, pwd)), size);
      && |text| <= buf.Length && buf[..|text|] == text
      && (size > 0 ==> |text| < size && buf[|text|] == '\0')
      && (forall k :: (if size > 0 then |text| + 1 else 0) <= k < buf.Length ==> buf[k] == old(buf[k]))
  {
    var out;
    bytes, out := PutAll(buf, size, user, pwd);
    if out < size {
      buf[out] := '\0';
    }
  }

  /* ---- the credentials come back ---- */

  /** What section 2 of RFC 7617 asks for: user name, colon, password. */
  function Credentials(user: CString, pwd: CString): seq<Byte> {
    Bytes(user) + [':' as int] + Bytes(pwd)
  }

  lemma {:induction false} DecodedLength(s: seq<char>, x: seq<Byte>)
    requires Decoded(s) == Some(x)
    ensures |s| % 4 == 0 && |x| * 4 <= |s| * 3
    decreases |s|
  {
    if s != [] {
      DecodedParts(s, x);
      DecodedLength(s[4..], Decoded(s[4..]).value);
      Multiple(|s|, |s[4..]|);
    }
  }

  lemma Multiple(n: nat, m: nat)
    requires n == m + 4 && m % 4 == 0
    ensures n % 4 == 0
  {
  }

  lemma DecodedParts(s: seq<char>, x: seq<Byte>)
    requires s != [] && Decoded(s) == Some(x)
    ensures |s| >= 4 && Decoded(s[4..]).Some? && |x| <= 3 + |Decoded(s[4..]).value|
  {
    QuadLength(s[..4], |s| == 4);
  }

  lemma QuadLength(q: seq<char>, last: bool)
    requires |q| == 4 && DecodedQuad(q, last).Some?
    ensures |DecodedQuad(q, last).value| <= 3
  {
  }

  lemma TooShort(text: seq<char>, size: int, n: nat)
    requires |text| == (n + 2) / 3 * 4 && size <= |text|
    ensures var got := Decoded(Fitting(text, size)); got.Some? ==> |got.value| < n || |got.value| == 0
  {
    var got := Decoded(Fitting(text, size));
    if got.Some? {
      DecodedLength(Fitting(text, size), got.value);
    }
  }

  /** Decoding gives the credentials back exactly when the buffer has room for the whole text and
      its NUL, and the password is not empty or the length of the user name is no multiple of
      three. With room but without such a password the colon is missing. */
  lemma CredentialsInvert(user: CString, pwd: CString, size: int)
    ensures var text := Encoded(Input(user, pwd));
      && (Decoded(Fitting(text, size)) == Some(Credentials(user, pwd))
          <==> size > |text| && (pwd != [] || |user| % 3 != 0))
      && (size > |text| && pwd == [] && |user| % 3 == 0 ==> Decoded(Fitting(text, size)) == Some(Bytes(user)))
  {
    var x := Input(user, pwd);
    assert |Credentials(user, pwd)| == |user| + 1 + |pwd| && |x| <= |user| + 1 + |pwd|;
    if size > |Encoded(x)| {
      DecodeEncode(x);
    } else {
      EncodedLength(x);
      TooShort(Encoded(x), size, |x|);
    }
  }
}
