/** HTTP requests as text inside UWB frames: serialize_http_request and
    parse_http_request of src/Master/src/uwb/UwbHandle.cpp.
 */
module UwbHttpText {
  import opened Basics
  import opened UwbFrameCodec

  datatype Verb = GET | POST | PUT | DELETE | Unknown(name: Octets)

  datatype Field = Field(name: Octets, value: Octets)

  datatype Request = Request(verb: Verb, target: Octets, fields: seq<Field>, body: Octets)

  const CR: Octet := '\r'
  const LF: Octet := '\n'
  const CRLF: Octets := "\r\n"
  const SEPARATOR: Octets := "\r\n\r\n"

  lemma Associative(a: Octets, b: Octets, c: Octets)
    ensures (a + b) + c == a + (b + c)
  {
  }

  /* ---- escaping ---- */

  function EscapeChar(c: Octet): Octets {
    if c == '\r' then "\\r" else if c == '\n' then "\\n" else if c == '\\' then "\\\\" else [c]
  }

  function Escaped(s: Octets): Octets {
    if s == [] then [] else EscapeChar(s[0]) + Escaped(s[1..])
  }

  lemma EscapedStep(done: Octets, original: Octets, i: nat)
    requires i < |original| && done + Escaped(original[i..]) == Escaped(original)
    ensures (done + EscapeChar(original[i])) + Escaped(original[i + 1..]) == Escaped(original)
  {
    assert original[i..][1..] == original[i + 1..];
    Associative(done, EscapeChar(original[i]), Escaped(original[i + 1..]));
  }

  method Escape(original: Octets) returns (escaped: Octets)
    ensures escaped == Escaped(original)
  {
    escaped := [];
    for i := 0 to |original|
      invariant escaped + Escaped(original[i..]) == Escaped(original)
    {
      EscapedStep(escaped, original, i);
      if original[i] == '\r' {
        escaped := escaped + "\\r";
      } else if original[i] == '\n' {
        escaped := escaped + "\\n";
      } else if original[i] == '\\' {
        escaped := escaped + "\\\\";
      } else {
        escaped := escaped + [original[i]];
      }
    }
  }

  /** The escape sequence at the head of a text, if there is one. */
  function EscapeAt(s: Octets): Option<Octet> {
    if |s| > 1 && s[..2] == "\\r" then Some('\r')
    else if |s| > 1 && s[..2] == "\\n" then Some('\n')
    else if |s| > 1 && s[..2] == "\\\\" then Some('\\')
    else None
  }

  function Unescaped(s: Octets): Octets {
    if s == [] then []
    else match EscapeAt(s)
         case Some(c) => [c] + Unescaped(s[2..])
         case None => [s[0]] + Unescaped(s[1..])
  }

  lemma UnescapedStep(done: Octets, data: Octets, i: nat, n: nat, c: Octet)
    requires i + n <= |data| && done + Unescaped(data[i..]) == Unescaped(data)
    requires Unescaped(data[i..]) == [c] + Unescaped(data[i..][n..])
    ensures (done + [c]) + Unescaped(data[i + n..]) == Unescaped(data)
  {
    assert data[i..][n..] == data[i + n..];
    Associative(done, [c], Unescaped(data[i + n..]));
  }

  lemma EscapeAtIs(data: Octets, i: nat)
    requires i < |data|
    ensures i + 1 < |data| ==> data[i..][..2] == Substr(data, i, 2)
    ensures i + 1 < |data| <==> |data[i..]| > 1
  {
  }

  method Unescape(data: Octets) returns (decoded: Octets)
    ensures decoded == Unescaped(data)
  {
    decoded := [];
    var i := 0;
    while i < |data|
      invariant 0 <= i <= |data|
      invariant decoded + Unescaped(data[i..]) == Unescaped(data)
    {
      EscapeAtIs(data, i);
      ghost var start, before := i, decoded;
      if i + 1 < |data| && Substr(data, i, 2) == "\\r" {
        decoded := decoded + ['\r'];
        i := i + 1;
      } else if i + 1 < |data| && Substr(data, i, 2) == "\\n" {
        decoded := decoded + ['\n'];
        i := i + 1;
      } else if i + 1 < |data| && Substr(data, i, 2) == "\\\\" {
        decoded := decoded + ['\\'];
        i := i + 1;
      } else {
        decoded := decoded + [data[i]];
      }
      i := i + 1;
      UnescapedStep(before, data, start, i - start, decoded[|before|]);
    }
  }

  lemma UnescapeChar(c: Octet, t: Octets)
    ensures Unescaped(EscapeChar(c) + t) == [c] + Unescaped(t)
  {
    var e := EscapeChar(c);
    if |e| == 2 {
      assert (e + t)[..2] == e && (e + t)[2..] == t;
    } else {
      assert (e + t)[1..] == t;
      assert |e + t| > 1 ==> (e + t)[..2][0] == c;
    }
  }

  lemma {:induction false} UnescapeEscape(s: Octets)
    ensures Unescaped(Escaped(s)) == s
  {
    if s != [] {
      UnescapeEscape(s[1..]);
      UnescapeChar(s[0], Escaped(s[1..]));
    }
  }

  /** Escaped text contains no line break, so it cannot be cut by the newline framing. */
  lemma {:induction false} EscapedHasNoBreak(s: Octets)
    ensures '\n' !in Escaped(s) && '\r' !in Escaped(s)
  {
    if s != [] {
      EscapedHasNoBreak(s[1..]);
    }
  }

  /* ---- printing ---- */

  function VerbText(v: Verb): Octets {
    match v
    case GET => "GET"
    case POST => "POST"
    case PUT => "PUT"
    case DELETE => "DELETE"
    case Unknown(name) => name
  }

  function RequestLine(req: Request): Octets {
    VerbText(req.verb) + " " + req.target + " HTTP/1.1"
  }

  function FieldLine(f: Field): Octets {
    f.name + ": " + f.value
  }

  /** The header lines, each preceded by a line break. */
  function FieldLines(fields: seq<Field>): Octets {
    if fields == [] then [] else CRLF + FieldLine(fields[0]) + FieldLines(fields[1..])
  }

  /** The message as section 2.1 of RFC 9112 lays it out. */
  function Printed(req: Request): Octets {
    RequestLine(req) + FieldLines(req.fields) + SEPARATOR + req.body
  }

  function Serialized(req: Request): Octets {
    Escaped(Printed(req))
  }

  lemma FieldLayout(f: Field, g: Field)
    ensures FieldLines([f, g]) == "\r\n" + (f.name + ": " + f.value) + ("\r\n" + (g.name + ": " + g.value))
  {
    assert [f, g][1..] == [g] && [g][1..] == [];
    assert FieldLines([g]) == CRLF + FieldLine(g) + [] == CRLF + FieldLine(g);
  }

  /** The layout of a message with two fields. */
  lemma Layout(req: Request, f: Field, g: Field)
    requires req.fields == [f, g] && !req.verb.Unknown?
    ensures var verb := match req.verb case GET => "GET" case POST => "POST" case PUT => "PUT" case _ => "DELETE";
      Printed(req) == verb + " " + req.target + " HTTP/1.1"
                      + ("\r\n" + (f.name + ": " + f.value) + ("\r\n" + (g.name + ": " + g.value)))
                      + "\r\n\r\n" + req.body
  {
    FieldLayout(f, g);
  }

  /** How characters are escaped, one after the other. */
  lemma EscapeTable(c: Octet, rest: Octets)
    ensures Escaped("\r" + rest) == "\\r" + Escaped(rest) && Escaped("\n" + rest) == "\\n" + Escaped(rest)
    ensures Escaped("\\" + rest) == "\\\\" + Escaped(rest)
    ensures c != '\r' && c != '\n' && c != '\\' ==> Escaped([c] + rest) == [c] + Escaped(rest)
  {
    assert forall d: Octet :: ([d] + rest)[1..] == rest;
  }

  /* ---- parsing ---- */

  /** std::string::find of the separator. */
  function FindSeparator(s: Octets): (r: Option<nat>)
    ensures r.Some? ==> r.value + 4 <= |s|
  {
    if |s| < 4 then None
    else if s[..4] == SEPARATOR then Some(0)
    else match FindSeparator(s[1..])
         case None => None
         case Some(i) => Some(i + 1)
  }

  /** The position of the first `c`, or the length. */
  function IndexOf(s: Octets, c: Octet): (i: nat)
    ensures i <= |s| && c !in s[..i] && (i < |s| ==> s[i] == c)
  {
    if s == [] || s[0] == c then 0
    else
      var i := IndexOf(s[1..], c) + 1;
      assert s[..i] == [s[0]] + s[1..][..i - 1];
      i
  }

  /** std::getline: the text before the first newline, and what follows it. */
  function FirstLine(s: Octets): Octets {
    s[..IndexOf(s, LF)]
  }

  function AfterLine(s: Octets): (r: Octets)
    ensures s != [] ==> |r| < |s|
  {
    if IndexOf(s, LF) < |s| then s[IndexOf(s, LF) + 1..] else []
  }

  function DropCR(line: Octets): Octets {
    if line != [] && line[|line| - 1] == CR then line[..|line| - 1] else line
  }

  function SkipSpaces(s: Octets): Octets {
    if s != [] && IsSpace(s[0]) then SkipSpaces(s[1..]) else s
  }

  /** The length of the leading run of characters that are not white space. */
  function WordLength(s: Octets): (n: nat)
    ensures n <= |s|
  {
    if s != [] && !IsSpace(s[0]) then 1 + WordLength(s[1..]) else 0
  }

  /** One extraction with operator>>: the next word and the rest. */
  function NextWord(s: Octets): (Octets, Octets) {
    var t := SkipSpaces(s);
    (t[..WordLength(t)], t[WordLength(t)..])
  }

  function VerbOf(word: Octets): Verb {
    if word == "GET" then GET
    else if word == "POST" then POST
    else if word == "PUT" then PUT
    else if word == "DELETE" then DELETE
    else Unknown([])
  }

  function WithRequestLine(req: Request, line: Octets): Request {
    var (verb, rest) := NextWord(line);
    var (path, _) := NextWord(rest);
    req.(verb := VerbOf(verb), target := path)
  }

  function TrimFront(s: Octets): Octets {
    if s != [] && s[0] == ' ' then TrimFront(s[1..]) else s
  }

  function TrimBack(s: Octets): Octets {
    if s != [] && s[|s| - 1] == ' ' then TrimBack(s[..|s| - 1]) else s
  }

  function LowerChar(c: Octet): Octet {
    if 'A' <= c <= 'Z' then (c as int + 32) as char else c
  }

  function Lower(s: Octets): Octets {
    seq(|s|, i requires 0 <= i < |s| => LowerChar(s[i]))
  }

  function Without(fields: seq<Field>, name: Octets): seq<Field> {
    if fields == [] then []
    else if Lower(fields[0].name) == Lower(name) then Without(fields[1..], name)
    else [fields[0]] + Without(fields[1..], name)
  }

  /** basic_fields::set: field names are compared without regard to case. */
  function SetField(fields: seq<Field>, name: Octets, value: Octets): seq<Field> {
    Without(fields, name) + [Field(name, value)]
  }

  function WithField(req: Request, line: Octets): Request {
    var colon := IndexOf(line, ':');
    if colon == |line| then req
    else req.(fields := SetField(req.fields, line[..colon], TrimBack(TrimFront(line[colon + 1..]))))
  }

  /** The loop over the header lines; an empty line ends it. Setting an unknown method throws, which
      refuses the text; a text without a request line leaves the method unset. */
  function ParseLines(rest: Octets, first: bool, req: Request): Option<Request>
    decreases |rest|
  {
    if rest == [] then Some(req)
    else
      var line := DropCR(FirstLine(rest));
      if line == [] then Some(req)
      else if !first then ParseLines(AfterLine(rest), false, WithField(req, line))
      else if WithRequestLine(req, line).verb.Unknown? then None
      else ParseLines(AfterLine(rest), false, WithRequestLine(req, line))
  }

  const EMPTY := Request(Unknown([]), [], [], [])

  function Decimal(n: nat): Octets {
    if n < 10 then [Digit(n)] else Decimal(n / 10) + [Digit(n % 10)]
  }

  const CONTENT_LENGTH: Octets := "Content-Length"

  /** prepare_payload: the length of the body is set for every body that is not empty and for POST and
      PUT, as section 8.6 of RFC 9110 asks, and removed otherwise. */
  function Prepared(req: Request): Request {
    if req.body != [] || req.verb.POST? || req.verb.PUT?
    then req.(fields := SetField(req.fields, CONTENT_LENGTH, Decimal(|req.body|)))
    else req.(fields := Without(req.fields, CONTENT_LENGTH))
  }

  function Finished(head: Option<Request>, body: Octets): Option<Request> {
    match head
    case None => None
    case Some(req) => Some(Prepared(req.(body := body)))
  }

  function Parsed(data: Octets): Option<Request> {
    var decoded := Unescaped(data);
    match FindSeparator(decoded)
    case None => None
    case Some(i) => Finished(ParseLines(decoded[..i], true, EMPTY), decoded[i + 4..])
  }

  method ParseHttpRequest(data: Octets) returns (r: Option<Request>)
    ensures r == Parsed(data)
  {
    var decoded := Unescape(data);
    var bodyStart := FindSeparator(decoded);
    if bodyStart.None? {
      return None;
    }
    var headersPart := decoded[..bodyStart.value];
    var bodyPart := decoded[bodyStart.value + 4..];
    var req := EMPTY;
    var rest := headersPart;
    var firstLine := true;
    while rest != []
      invariant ParseLines(rest, firstLine, req) == ParseLines(headersPart, true, EMPTY)
      decreases |rest|
    {
      var line := DropCR(FirstLine(rest));
      if line == [] {
        break;
      }
      if firstLine {
        req := WithRequestLine(req, line);
        if req.verb.Unknown? {
          return None;
        }
        firstLine := false;
      } else {
        req := WithField(req, line);
      }
      rest := AfterLine(rest);
    }
    r := Some(Prepared(req.(body := bodyPart)));
  }

  method SerializeHttpRequest(req: Request) returns (r: Octets)
    ensures r == Serialized(req)
  {
    r := Escape(Printed(req));
  }

  /* ---- round trip ---- */

  predicate Plain(s: Octets) {
    CR !in s && LF !in s
  }

  predicate GoodTarget(s: Octets) {
    s != [] && forall i :: 0 <= i < |s| ==> !IsSpace(s[i])
  }

  predicate GoodField(f: Field) {
    && Plain(f.name) && ':' !in f.name && Plain(f.value)
    && (f.value != [] ==> f.value[0] != ' ' && f.value[|f.value| - 1] != ' ')
  }

  /** Field names differ in more than case. */
  predicate UniqueNames(fields: seq<Field>) {
    forall i, j :: 0 <= i < j < |fields| ==> Lower(fields[i].name) != Lower(fields[j].name)
  }

  /** The requests the link promises to carry. */
  predicate WellFormed(req: Request) {
    && !req.verb.Unknown? && GoodTarget(req.target)
    && (forall f :: f in req.fields ==> GoodField(f))
    && UniqueNames(req.fields)
  }

  lemma {:induction false} IndexOfAppend(s: Octets, c: Octet, t: Octets)
    requires c !in s
    ensures IndexOf(s + t, c) == |s| + IndexOf(t, c)
  {
    if s == [] {
      assert s + t == t;
    } else {
      assert (s + t)[1..] == s[1..] + t;
      IndexOfAppend(s[1..], c, t);
    }
  }

  lemma LineSplit(line: Octets, more: Octets)
    requires Plain(line)
    ensures DropCR(FirstLine(line + CRLF + more)) == line
    ensures AfterLine(line + CRLF + more) == more
  {
    var s := line + CRLF + more;
    assert s == (line + [CR]) + ([LF] + more);
    IndexOfAppend(line + [CR], LF, [LF] + more);
    assert s[..|line| + 1] == line + [CR];
    assert s[|line| + 2..] == more;
  }

  lemma LastLine(line: Octets)
    requires Plain(line)
    ensures DropCR(FirstLine(line)) == line && AfterLine(line) == []
  {
    assert line + [] == line;
    IndexOfAppend(line, LF, []);
    assert line[..|line|] == line;
  }

  lemma {:induction false} SkipPlain(line: Octets, t: Octets, n: nat)
    requires CR !in line && FindSeparator(t) == Some(n)
    ensures FindSeparator(line + t) == Some(|line| + n)
  {
    if line == [] {
      assert line + t == t;
    } else {
      assert (line + t)[1..] == line[1..] + t;
      SkipPlain(line[1..], t, n);
      assert (line + t)[..4][0] == line[0];
    }
  }

  /** A line break that is followed by a non-empty plain line is not the separator. */
  lemma SkipBreak(line: Octets, t: Octets, n: nat)
    requires Plain(line) && line != [] && FindSeparator(line + t) == Some(n)
    ensures FindSeparator(CRLF + (line + t)) == Some(2 + n)
  {
    var u := line + t;
    assert u[0] == line[0];
    var s := [LF] + u;
    assert s[..4][0] == LF;
    assert s[1..] == u;
    assert ([CR] + s)[..4][2] == u[0];
    assert ([CR] + s)[1..] == s;
    assert CRLF + u == [CR] + s;
  }

  /** The text of a line, the header lines after it, the separator and the body. */
  function Message(line: Octets, fields: seq<Field>, body: Octets): Octets {
    line + Tail(fields, body)
  }

  function Tail(fields: seq<Field>, body: Octets): Octets {
    if fields == [] then SEPARATOR + body else CRLF + (FieldLine(fields[0]) + Tail(fields[1..], body))
  }

  lemma {:induction false} TailIs(fields: seq<Field>, body: Octets)
    ensures Tail(fields, body) == FieldLines(fields) + SEPARATOR + body
  {
    if fields == [] {
      assert FieldLines(fields) + SEPARATOR == SEPARATOR;
    } else {
      var line, rest := FieldLine(fields[0]), FieldLines(fields[1..]);
      TailIs(fields[1..], body);
      assert CRLF + (line + (rest + SEPARATOR + body)) == (CRLF + line + rest) + SEPARATOR + body;
    }
  }

  lemma {:induction false} SeparatorInTail(fields: seq<Field>, body: Octets)
    requires forall f :: f in fields ==> GoodField(f)
    ensures FindSeparator(Tail(fields, body)) == Some(|FieldLines(fields)|)
    decreases |fields|
  {
    if fields == [] {
      SeparatorFirst(body);
    } else {
      var next, t := FieldLine(fields[0]), Tail(fields[1..], body);
      FieldLinePlain(fields[0]);
      SeparatorInTail(fields[1..], body);
      SkipPlain(next, t, |FieldLines(fields[1..])|);
      SkipBreak(next, t, |next| + |FieldLines(fields[1..])|);
      assert |FieldLines(fields)| == 2 + |next| + |FieldLines(fields[1..])|;
    }
  }

  lemma SeparatorAfterFields(line: Octets, fields: seq<Field>, body: Octets)
    requires Plain(line) && forall f :: f in fields ==> GoodField(f)
    ensures FindSeparator(Message(line, fields, body)) == Some(|line| + |FieldLines(fields)|)
  {
    SeparatorInTail(fields, body);
    SkipPlain(line, Tail(fields, body), |FieldLines(fields)|);
  }

  lemma SeparatorFirst(body: Octets)
    ensures FindSeparator(SEPARATOR + body) == Some(0)
  {
    assert (SEPARATOR + body)[..4] == SEPARATOR;
  }

  lemma FieldLinePlain(f: Field)
    requires GoodField(f)
    ensures Plain(FieldLine(f)) && FieldLine(f) != []
  {
  }

  lemma {:induction false} TrimBackKeeps(s: Octets)
    requires s != [] ==> s[|s| - 1] != ' '
    ensures TrimBack(s) == s
  {
  }

  lemma TrimOne(value: Octets)
    requires value != [] ==> value[0] != ' ' && value[|value| - 1] != ' '
    ensures TrimBack(TrimFront(" " + value)) == value
  {
    assert (" " + value)[1..] == value;
    TrimBackKeeps(value);
  }

  lemma FieldLineParsed(req: Request, f: Field)
    requires GoodField(f)
    ensures WithField(req, FieldLine(f)) == req.(fields := SetField(req.fields, f.name, f.value))
  {
    var line := FieldLine(f);
    assert line == f.name + (": " + f.value);
    IndexOfAppend(f.name, ':', ": " + f.value);
    assert IndexOf(": " + f.value, ':') == 0;
    assert line[..|f.name|] == f.name;
    assert line[|f.name| + 1..] == " " + f.value;
    TrimOne(f.value);
  }

  lemma {:induction false} WithoutNone(fields: seq<Field>, name: Octets)
    requires forall i :: 0 <= i < |fields| ==> Lower(fields[i].name) != Lower(name)
    ensures Without(fields, name) == fields
  {
    if fields != [] {
      WithoutNone(fields[1..], name);
    }
  }

  /** A new name is appended, as its names differ from the ones already there. */
  lemma NewFieldParsed(req: Request, f: Field, later: seq<Field>)
    requires GoodField(f) && UniqueNames(req.fields + ([f] + later))
    ensures WithField(req, FieldLine(f)) == req.(fields := req.fields + [f])
  {
    FieldLineParsed(req, f);
    var all := req.fields + ([f] + later);
    forall i | 0 <= i < |req.fields| ensures Lower(req.fields[i].name) != Lower(f.name) {
      assert all[i] == req.fields[i] && all[|req.fields|] == f;
    }
    WithoutNone(req.fields, f.name);
    assert Field(f.name, f.value) == f;
  }

  /** The header lines after the request line. */
  function HeaderText(fields: seq<Field>): Octets
    requires fields != []
  {
    FieldLine(fields[0]) + FieldLines(fields[1..])
  }

  lemma MoreLines(line: Octets, fields: seq<Field>)
    requires Plain(line)
    ensures DropCR(FirstLine(line + FieldLines(fields))) == line
    ensures AfterLine(line + FieldLines(fields)) == if fields == [] then [] else HeaderText(fields)
  {
    if fields == [] {
      assert line + FieldLines(fields) == line;
      LastLine(line);
    } else {
      assert FieldLines(fields) == CRLF + HeaderText(fields);
      assert line + (CRLF + HeaderText(fields)) == line + CRLF + HeaderText(fields);
      LineSplit(line, HeaderText(fields));
    }
  }

  /** The header lines are parsed back into the fields, in order. */
  lemma {:induction false} FieldLinesParsed(req: Request, fields: seq<Field>)
    requires fields != [] && (forall f :: f in fields ==> GoodField(f)) && UniqueNames(req.fields + fields)
    ensures ParseLines(HeaderText(fields), false, req) == Some(req.(fields := req.fields + fields))
    decreases |fields|
  {
    var f, rest := fields[0], fields[1..];
    FieldLinePlain(f);
    assert fields == [f] + rest;
    NewFieldParsed(req, f, rest);
    MoreLines(FieldLine(f), rest);
    var req' := req.(fields := req.fields + [f]);
    Associative2(req.fields, f, rest);
    if rest == [] {
      assert ParseLines([], false, req') == Some(req');
    } else {
      FieldLinesParsed(req', rest);
    }
  }

  lemma Associative2(a: seq<Field>, f: Field, rest: seq<Field>)
    ensures (a + [f]) + rest == a + ([f] + rest)
    ensures rest == [] ==> a + ([f] + rest) == a + [f]
  {
  }

  lemma {:induction false} WordPrefix(word: Octets, t: Octets)
    requires (forall i :: 0 <= i < |word| ==> !IsSpace(word[i])) && (t == [] || IsSpace(t[0]))
    ensures WordLength(word + t) == |word|
  {
    if word == [] {
      assert word + t == t;
    } else {
      assert (word + t)[1..] == word[1..] + t;
      WordPrefix(word[1..], t);
    }
  }

  lemma NextWordIs(word: Octets, t: Octets)
    requires word != [] && (forall i :: 0 <= i < |word| ==> !IsSpace(word[i])) && (t == [] || IsSpace(t[0]))
    ensures NextWord(word + t) == (word, t)
  {
    WordPrefix(word, t);
    assert SkipSpaces(word + t) == word + t;
  }

  lemma VerbIsWord(v: Verb)
    requires !v.Unknown?
    ensures var word := VerbText(v);
      word != [] && Plain(word) && (forall i :: 0 <= i < |word| ==> !IsSpace(word[i])) && VerbOf(word) == v
  {
  }

  lemma TargetIsNext(target: Octets)
    requires GoodTarget(target)
    ensures NextWord(" " + (target + " HTTP/1.1")).0 == target
  {
    var rest := target + " HTTP/1.1";
    assert (" " + rest)[1..] == rest;
    NextWordIs(target, " HTTP/1.1");
  }

  lemma RequestLineParsed(req: Request, acc: Request)
    requires !req.verb.Unknown? && GoodTarget(req.target)
    ensures WithRequestLine(acc, RequestLine(req)) == acc.(verb := req.verb, target := req.target)
  {
    var v, rest := VerbText(req.verb), " " + (req.target + " HTTP/1.1");
    VerbIsWord(req.verb);
    assert RequestLine(req) == v + rest;
    NextWordIs(v, rest);
    TargetIsNext(req.target);
  }

  lemma RequestLinePlain(req: Request)
    requires !req.verb.Unknown? && GoodTarget(req.target)
    ensures Plain(RequestLine(req)) && RequestLine(req) != []
  {
    VerbIsWord(req.verb);
    assert IsSpace(CR) && IsSpace(LF);
    assert forall c :: c in req.target ==> !IsSpace(c);
    assert Plain(" HTTP/1.1") && Plain(" ");
  }

  lemma HeadersParsed(req: Request)
    requires WellFormed(req)
    ensures ParseLines(RequestLine(req) + FieldLines(req.fields), true, EMPTY) == Some(req.(body := []))
  {
    RequestLineParsed(req, EMPTY);
    RequestLinePlain(req);
    MoreLines(RequestLine(req), req.fields);
    var acc := EMPTY.(verb := req.verb, target := req.target);
    if req.fields == [] {
      assert ParseLines([], false, acc) == Some(acc);
    } else {
      assert acc.fields + req.fields == req.fields;
      FieldLinesParsed(acc, req.fields);
    }
  }

  lemma PrintedParts(req: Request, text: Octets, head: Octets)
    requires text == Printed(req) && head == RequestLine(req) + FieldLines(req.fields)
    ensures text == Message(RequestLine(req), req.fields, req.body)
    ensures |text| == |head| + 4 + |req.body| && text[..|head|] == head && text[|head| + 4..] == req.body
  {
    TailIs(req.fields, req.body);
    var line, lines := RequestLine(req), FieldLines(req.fields);
    Associative(line, lines, SEPARATOR);
    Associative(line, lines + SEPARATOR, req.body);
  }

  /** The blank line that parse_http_request finds is the one that serialising put there. */
  lemma PrintedParsed(req: Request, text: Octets, head: Octets)
    requires WellFormed(req) && text == Printed(req) && head == RequestLine(req) + FieldLines(req.fields)
    ensures FindSeparator(text) == Some(|head|)
    ensures |head| + 4 <= |text| && text[..|head|] == head && text[|head| + 4..] == req.body
  {
    RequestLinePlain(req);
    PrintedParts(req, text, head);
    SeparatorAfterFields(RequestLine(req), req.fields, req.body);
  }

  lemma ParsedFrom(data: Octets, text: Octets, head: Octets, parsed: Request)
    requires Unescaped(data) == text && FindSeparator(text) == Some(|head|)
    requires |head| + 4 <= |text| && text[..|head|] == head && ParseLines(head, true, EMPTY) == Some(parsed)
    ensures Parsed(data) == Some(Prepared(parsed.(body := text[|head| + 4..])))
  {
  }

  /** Parsing gives back every well-formed request, whatever its body, with the length of the body
      recomputed. */
  lemma ParseSerialize(req: Request)
    requires WellFormed(req)
    ensures Parsed(Serialized(req)) == Some(Prepared(req))
  {
    var text, head := Printed(req), RequestLine(req) + FieldLines(req.fields);
    UnescapeEscape(text);
    PrintedParsed(req, text, head);
    HeadersParsed(req);
    ParsedFrom(Serialized(req), text, head, req.(body := []));
  }

  /* ---- prepared requests ---- */

  lemma {:induction false} WithoutTwice(fields: seq<Field>, name: Octets, value: Octets)
    ensures Without(Without(fields, name), name) == Without(fields, name)
    ensures Without(SetField(fields, name, value), name) == Without(fields, name)
  {
    WithoutClears(fields, name);
    WithoutNone(Without(fields, name), name);
    WithoutAppend(Without(fields, name), Field(name, value), name);
  }

  lemma {:induction false} WithoutAppend(fields: seq<Field>, f: Field, name: Octets)
    requires Lower(f.name) == Lower(name)
    ensures Without(fields + [f], name) == Without(fields, name)
  {
    if fields == [] {
      assert fields + [f] == [f];
    } else {
      assert (fields + [f])[1..] == fields[1..] + [f];
      WithoutAppend(fields[1..], f, name);
    }
  }

  lemma {:induction false} WithoutClears(fields: seq<Field>, name: Octets)
    ensures forall i :: 0 <= i < |Without(fields, name)| ==> Lower(Without(fields, name)[i].name) != Lower(name)
    ensures forall f :: f in Without(fields, name) ==> f in fields
    ensures |Without(fields, name)| <= |fields|
  {
    if fields != [] {
      WithoutClears(fields[1..], name);
    }
  }

  /** Preparing twice is preparing once. */
  lemma PreparedIdempotent(req: Request)
    ensures Prepared(Prepared(req)) == Prepared(req)
  {
    WithoutTwice(req.fields, CONTENT_LENGTH, Decimal(|req.body|));
  }

  lemma {:induction false} WithoutUnique(fields: seq<Field>, name: Octets)
    requires UniqueNames(fields)
    ensures UniqueNames(Without(fields, name))
  {
    if fields != [] {
      WithoutUnique(fields[1..], name);
      WithoutClears(fields[1..], name);
      var rest := Without(fields[1..], name);
      forall i | 0 <= i < |rest| ensures Lower(rest[i].name) != Lower(fields[0].name) {
        assert rest[i] in fields[1..];
        var k :| 0 <= k < |fields[1..]| && fields[1..][k] == rest[i];
        assert fields[k + 1] == rest[i];
      }
    }
  }

  /** The text is n in base 10, without leading zeros. */
  predicate IsDecimal(text: Octets, n: nat) {
    && text != [] && text[|text| - 1] == "0123456789"[n % 10]
    && if |text| == 1 then n < 10 else n >= 10 && IsDecimal(text[..|text| - 1], n / 10)
  }

  lemma {:induction false} DecimalSpells(n: nat)
    ensures IsDecimal(Decimal(n), n)
  {
    if n >= 10 {
      DecimalSpells(n / 10);
      assert Decimal(n)[..|Decimal(n)| - 1] == Decimal(n / 10);
    }
  }

  lemma {:induction false} InWithout(fields: seq<Field>, name: Octets, f: Field)
    ensures f in Without(fields, name) <==> f in fields && Lower(f.name) != Lower(name)
  {
    if fields != [] {
      InWithout(fields[1..], name, f);
      assert f in fields <==> f == fields[0] || f in fields[1..];
    }
  }

  /** A prepared request tells the length of its body, and nothing else, in its one Content-Length; the
      other fields stay. */
  lemma PreparedLength(req: Request, f: Field)
    ensures f in Prepared(req).fields && Lower(f.name) == Lower("Content-Length") ==> IsDecimal(f.value, |req.body|)
    ensures Lower(f.name) != Lower("Content-Length") ==> (f in Prepared(req).fields <==> f in req.fields)
    ensures req.body != [] || req.verb.POST? || req.verb.PUT? ==>
      Field("Content-Length", Decimal(|req.body|)) in Prepared(req).fields
    ensures req.body == [] && !req.verb.POST? && !req.verb.PUT? && Lower(f.name) == Lower("Content-Length") ==>
      f !in Prepared(req).fields
  {
    DecimalSpells(|req.body|);
    InWithout(req.fields, CONTENT_LENGTH, f);
  }

  lemma {:induction false} DecimalDigits(n: nat)
    ensures Decimal(n) != [] && forall c :: c in Decimal(n) ==> '0' <= c <= '9'
  {
    if n >= 10 {
      DecimalDigits(n / 10);
    }
  }

  /** A prepared request is as well formed as the request was. */
  lemma PreparedWellFormed(req: Request)
    requires WellFormed(req)
    ensures WellFormed(Prepared(req))
  {
    var rest, f := Without(req.fields, CONTENT_LENGTH), Field(CONTENT_LENGTH, Decimal(|req.body|));
    WithoutUnique(req.fields, CONTENT_LENGTH);
    WithoutClears(req.fields, CONTENT_LENGTH);
    DecimalDigits(|req.body|);
    assert f.value[0] in f.value && f.value[|f.value| - 1] in f.value;
    assert GoodField(f);
    assert UniqueNames(rest + [f]);
  }

  /** What the sending side has prepared comes back exactly as it was; and only a request that is
      prepared does. */
  lemma PreparedRoundTrip(req: Request)
    requires WellFormed(req)
    ensures Parsed(Serialized(Prepared(req))) == Some(Prepared(req))
    ensures Parsed(Serialized(req)) == Some(req) <==> Prepared(req) == req
  {
    PreparedWellFormed(req);
    PreparedIdempotent(req);
    ParseSerialize(Prepared(req));
    ParseSerialize(req);
  }

  /* ---- texts that the sending side does not produce ---- */

  /** Escapes in front of a text. */
  lemma UnescapeTable(rest: Octets)
    ensures Unescaped("\\r" + rest) == "\r" + Unescaped(rest) && Unescaped("\\n" + rest) == "\n" + Unescaped(rest)
    ensures Unescaped("\\\\" + rest) == "\\" + Unescaped(rest)
  {
    assert ("\\r" + rest)[..2] == "\\r" && ("\\r" + rest)[2..] == rest;
    assert ("\\n" + rest)[..2] == "\\n" && ("\\n" + rest)[2..] == rest;
    assert ("\\\\" + rest)[..2] == "\\\\" && ("\\\\" + rest)[2..] == rest;
  }

  /** Other characters stand for themselves, and so does a backslash before one of them or at the end. */
  lemma UnescapeOthers(c: Octet, rest: Octets)
    requires c != '\\'
    ensures Unescaped([c] + rest) == [c] + Unescaped(rest) && Unescaped("\\") == "\\"
    ensures c != 'r' && c != 'n' ==> Unescaped("\\" + ([c] + rest)) == "\\" + ([c] + Unescaped(rest))
  {
    assert ([c] + rest)[1..] == rest && ([c] + rest)[0] == c;
    var s := "\\" + ([c] + rest);
    assert s[1..] == [c] + rest && s[..2][1] == c;
  }

  lemma LowerTable(i: nat, c: Octet)
    requires i < 26
    ensures Lower(["ABCDEFGHIJKLMNOPQRSTUVWXYZ"[i]]) == ["abcdefghijklmnopqrstuvwxyz"[i]]
    ensures c !in "ABCDEFGHIJKLMNOPQRSTUVWXYZ" ==> Lower([c]) == [c]
  {
    if 'A' <= c <= 'Z' {
      assert "ABCDEFGHIJKLMNOPQRSTUVWXYZ"[c as int - 'A' as int] == c;
    }
  }

  /** Setting a field replaces all fields whose names differ from it in case only, and no others. */
  lemma SetReplaces(fields: seq<Field>, name: Octets, value: Octets, f: Field)
    ensures f in SetField(fields, name, value)
       <==> f == Field(name, value) || (f in fields && Lower(f.name) != Lower(name))
  {
    InWithout(fields, name, f);
  }

  function Spaces(n: nat): Octets {
    seq(n, _ => ' ')
  }

  lemma {:induction false} TrimFrontAll(n: nat, s: Octets)
    requires s != [] ==> s[0] != ' '
    ensures TrimFront(Spaces(n) + s) == s
  {
    if n > 0 {
      assert (Spaces(n) + s)[1..] == Spaces(n - 1) + s;
      TrimFrontAll(n - 1, s);
    } else {
      assert Spaces(n) + s == s;
    }
  }

  lemma {:induction false} TrimBackAll(n: nat, s: Octets)
    requires s != [] ==> s[|s| - 1] != ' '
    ensures TrimBack(s + Spaces(n)) == s
  {
    if n > 0 {
      assert (s + Spaces(n))[..|s| + n - 1] == s + Spaces(n - 1);
      TrimBackAll(n - 1, s);
    } else {
      assert s + Spaces(n) == s;
    }
  }

  /** Spaces around the value of a header line do not count, and a line without a colon is ignored. */
  lemma FieldLineRead(req: Request, name: Octets, value: Octets, before: nat, after: nat, other: Octets)
    requires ':' !in name && value != [] && value[0] != ' ' && value[|value| - 1] != ' ' && ':' !in other
    ensures WithField(req, name + ":" + (Spaces(before) + (value + Spaces(after))))
         == req.(fields := SetField(req.fields, name, value))
    ensures WithField(req, other) == req
  {
    var tail := Spaces(before) + (value + Spaces(after));
    var line := name + ":" + tail;
    assert line == name + (":" + tail);
    IndexOfAppend(name, ':', ":" + tail);
    assert line[..|name|] == name && line[|name| + 1..] == tail;
    TrimFrontAll(before, value + Spaces(after));
    TrimBackAll(after, value);
  }

  lemma {:induction false} NeverRefusedLater(rest: Octets, req: Request)
    ensures ParseLines(rest, false, req).Some?
    decreases |rest|
  {
    if rest != [] && DropCR(FirstLine(rest)) != [] {
      NeverRefusedLater(AfterLine(rest), WithField(req, DropCR(FirstLine(rest))));
    }
  }

  predicate KnownMethod(word: Octets) {
    word == "GET" || word == "POST" || word == "PUT" || word == "DELETE"
  }

  lemma HeadRefused(head: Octets)
    ensures ParseLines(head, true, EMPTY).None?
       <==> DropCR(FirstLine(head)) != [] && !KnownMethod(NextWord(DropCR(FirstLine(head))).0)
  {
    var line := DropCR(FirstLine(head));
    if line != [] {
      NeverRefusedLater(AfterLine(head), WithRequestLine(EMPTY, line));
    }
  }

  /** A text is refused exactly when it has no blank line or its first line, if it is not empty, does not
      start with one of the four methods. */
  lemma RefusedIff(data: Octets)
    ensures var text := Unescaped(data);
      Parsed(data).None?
      <==> FindSeparator(text).None?
           || (var line := DropCR(FirstLine(text[..FindSeparator(text).value]));
               line != [] && !KnownMethod(NextWord(line).0))
  {
    var text := Unescaped(data);
    if FindSeparator(text).Some? {
      HeadRefused(text[..FindSeparator(text).value]);
    }
  }
}
