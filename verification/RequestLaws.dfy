/** What Read_Buff makes of whole messages: printed ones (sections 3 and 5 of RFC 9112) and the exact
    set of inputs on which its assert does not fail. */
module RequestLaws {
  import opened Bytes
  import opened Request
  import Form

  // ----- Messages and their printed form -----

  datatype Message = Message(line: RequestLine, headers: seq<Header>, body: bytes) {
    ghost predicate WellFormed() {
      && line.SpaceFree() && NoCrlf(line.Printed())
      && forall i :: 0 <= i < |headers| ==> HeaderWellFormed(headers[i])
    }

    function Printed(): bytes {
      line.Printed() + CRLF + HeaderBlock(headers) + CRLF + body
    }
  }

  ghost predicate HeaderWellFormed(h: Header) {
    COLON !in h.name && NoCrlf(h.name) && OneLine(h.value)
  }

  function HeaderBlock(hs: seq<Header>): bytes
    decreases |hs|
  {
    if hs == [] then [] else hs[0].Printed() + CRLF + HeaderBlock(hs[1..])
  }

  /** The headers stored in order over those kept from before. */
  function Overlaid(m: Headers, hs: seq<Header>): Headers
    decreases |hs|
  {
    if hs == [] then m else Overlaid(m[hs[0].name := hs[0].value], hs[1..])
  }

  // ----- Lines -----

  /** A line without CRLF ends at the CRLF printed after it. */
  lemma LineEndsAtCrlf(line: bytes, rest: bytes)
    requires NoCrlf(line)
    ensures FindCrlf(line + CRLF + rest) == |line|
    ensures (line + CRLF + rest)[..|line|] == line && (line + CRLF + rest)[|line| + 2..] == rest
  {
    var s := line + CRLF + rest;
    assert CrlfAt(s, |line|);
    forall k: nat | k < |line| ensures !CrlfAt(s, k) {
      assert !CrlfAt(line, k);
    }
  }

  lemma IndexIs(s: bytes, c: byte, i: nat)
    requires i < |s| && s[i] == c && c !in s[..i]
    ensures IndexOf(s, c) == i
  {
    var k := IndexOf(s, c);
    assert forall p :: 0 <= p < i ==> s[p] == s[..i][p] != c;
    assert forall p :: 0 <= p < k ==> s[p] == s[..k][p] != c;
  }

  lemma CutAt(a: bytes, c: byte, b: bytes)
    requires c !in a
    ensures var s := a + [c] + b;
            IndexOf(s, c) == |a| && |a| < |s| && s[..|a|] == a && s[|a| + 1..] == b
  {
    var s := a + [c] + b;
    assert s[..|a|] == a && s[|a|] == c;
    IndexIs(s, c, |a|);
  }

  lemma SplitPrintedLine(l: RequestLine)
    requires l.SpaceFree()
    ensures SplitRequestLine(l.Printed()) == Some(l)
  {
    hide IndexOf;
    var last := HTTP + l.version;
    var afterVerb := l.path + [SPACE] + last;
    assert l.Printed() == l.verb + [SPACE] + afterVerb;
    CutAt(l.verb, SPACE, afterVerb);
    CutAt(l.path, SPACE, last);
    assert last[..|HTTP|] == HTTP && last[|HTTP|..] == l.version;
  }

  lemma SplitPrintedHeader(h: Header)
    requires HeaderWellFormed(h)
    ensures SplitHeader(h.Printed()) == Some(h) && NoCrlf(h.Printed())
  {
    var s := h.Printed();
    assert s == h.name + [COLON] + ([SPACE] + h.value);
    CutAt(h.name, COLON, [SPACE] + h.value);
    assert ([SPACE] + h.value)[1..] == h.value;
    forall i: nat | i + 1 < |s| ensures !CrlfAt(s, i) {
      assert !CrlfAt(h.name, i);
      if i + 1 >= |h.name| + 2 {
        assert s[i + 1] == h.value[i - 1 - |h.name|];
      }
    }
  }

  /** A line matches the first pattern exactly when it can be written so; the fields are then unique. */
  lemma RequestPatternIff(line: bytes)
    ensures SplitRequestLine(line).Some? <==> exists l: RequestLine :: l.SpaceFree() && line == l.Printed()
    ensures forall l: RequestLine :: l.SpaceFree() && line == l.Printed() ==> SplitRequestLine(line) == Some(l)
  {
    hide SplitRequestLine;
    forall l: RequestLine | l.SpaceFree() && line == l.Printed() ensures SplitRequestLine(line) == Some(l) {
      SplitPrintedLine(l);
    }
    if SplitRequestLine(line).Some? {
      var l := SplitRequestLine(line).value;
      assert l.SpaceFree() && line == l.Printed();
    }
  }

  /** A name without ':', a ':' and a value on one line. */
  ghost predicate HeaderShape(line: bytes, name: bytes, rest: bytes) {
    COLON !in name && OneLine(rest) && line == name + [COLON] + rest
  }

  lemma SplitShapedHeader(line: bytes, name: bytes, rest: bytes)
    requires HeaderShape(line, name, rest)
    ensures SplitHeader(line) == Some(Header(name, if rest != [] && rest[0] == SPACE then rest[1..] else rest))
  {
    hide IndexOf;
    CutAt(name, COLON, rest);
  }

  /** A line matches the second pattern exactly when it has that shape; one space before the value
      is not part of it. */
  lemma HeaderPatternIff(line: bytes)
    ensures SplitHeader(line).Some? <==> exists name, rest :: HeaderShape(line, name, rest)
    ensures forall name, rest :: HeaderShape(line, name, rest) ==>
              SplitHeader(line) == Some(Header(name, if rest != [] && rest[0] == SPACE then rest[1..] else rest))
  {
    hide SplitHeader;
    forall name, rest | HeaderShape(line, name, rest)
      ensures SplitHeader(line) == Some(Header(name, if rest != [] && rest[0] == SPACE then rest[1..] else rest))
    {
      SplitShapedHeader(line, name, rest);
    }
    if SplitHeader(line).Some? {
      var h := SplitHeader(line).value;
      if line == h.Printed() {
        assert HeaderShape(line, h.name, [SPACE] + h.value);
      } else {
        assert HeaderShape(line, h.name, h.value);
      }
    }
  }

  lemma EmptyLine()
    ensures NoCrlf([]) && SplitHeader([]) == None
  {
  }

  /** A turn on a line without CRLF, the CRLF after it, and the rest. */
  lemma TurnOnLine(q: Req, line: bytes, rest: bytes)
    requires q.phase == AtHeaders && NoCrlf(line)
    ensures var q' := HeaderRead(q, line);
            Parse(q, line + CRLF + rest) ==
              if |rest| < 2 then Tripped
              else if |rest| == 2 then Done(q'.(phase := Finished), [])
              else Parse(q', rest)
  {
    LineEndsAtCrlf(line, rest);
    assert line + CRLF + rest != [];
  }

  // ----- Parsing a printed message -----

  /** What follows the last header: the blank line and the body. */
  ghost function AfterHeaders(q: Req, body: bytes): Result {
    if |body| < 2 then Tripped
    else if |body| == 2 then Done(q.(phase := Finished), [])
    else BodyRead(q.(phase := AtBody), body)
  }

  lemma BlankLine(q: Req, body: bytes)
    requires q.phase == AtHeaders
    ensures Parse(q, CRLF + body) == AfterHeaders(q, body)
  {
    EmptyLine();
    TurnOnLine(q, [], body);
    assert [] + CRLF + body == CRLF + body;
    if |body| > 2 {
      assert Parse(q.(phase := AtBody), body) == BodyRead(q.(phase := AtBody), body);
    }
  }

  lemma {:induction false} ParseHeaderBlock(q: Req, hs: seq<Header>, body: bytes)
    requires q.phase == AtHeaders && forall i :: 0 <= i < |hs| ==> HeaderWellFormed(hs[i])
    ensures var q' := q.(headers := Overlaid(q.headers, hs));
            Parse(q, HeaderBlock(hs) + CRLF + body) ==
              if hs != [] && body == [] then Done(q'.(phase := Finished), []) else AfterHeaders(q', body)
    decreases |hs|
  {
    hide Parse, HeaderRead, SplitHeader, AfterHeaders, HeaderWellFormed, NoCrlf;
    if hs == [] {
      BlankLine(q, body);
      assert HeaderBlock(hs) + CRLF + body == CRLF + body;
    } else {
      var rest := HeaderBlock(hs[1..]) + CRLF + body;
      PrintedHeaderTurn(q, hs, body);
      if hs[1..] != [] || body != [] {
        ParseHeaderBlock(q.(headers := q.headers[hs[0].name := hs[0].value]), hs[1..], body);
      }
    }
  }

  /** The turn on the first of some printed headers: it is the last one only if nothing but the blank
      line follows. */
  lemma PrintedHeaderTurn(q: Req, hs: seq<Header>, body: bytes)
    requires q.phase == AtHeaders && hs != [] && HeaderWellFormed(hs[0])
    ensures var q' := q.(headers := q.headers[hs[0].name := hs[0].value]);
            var rest := HeaderBlock(hs[1..]) + CRLF + body;
            Parse(q, HeaderBlock(hs) + CRLF + body) ==
              if hs[1..] == [] && body == [] then Done(q'.(phase := Finished), [])
              else Parse(q', rest)
  {
    var h := hs[0];
    var rest := HeaderBlock(hs[1..]) + CRLF + body;
    SplitPrintedHeader(h);
    hide Parse, SplitHeader, HeaderWellFormed, NoCrlf;
    assert HeaderBlock(hs) + CRLF + body == h.Printed() + CRLF + rest;
    TurnOnLine(q, h.Printed(), rest);
    if hs[1..] != [] {
      assert |HeaderBlock(hs[1..])| >= |hs[1].Printed()| + 2;
    }
  }

  ghost function LineRead(q: Req, l: RequestLine): Req {
    q.(verb := l.verb, path := l.path, version := l.version, phase := AtHeaders)
  }

  /** What parsing makes of any printed message, whatever requests came before it. */
  lemma ParsePrinted(q: Req, m: Message)
    requires m.WellFormed()
    ensures var q' := LineRead(Started(q), m.line).(headers := Overlaid(q.headers, m.headers));
            Parse(Started(q), m.Printed()) ==
              if m.headers != [] && m.body == [] then Done(q'.(phase := Finished), []) else AfterHeaders(q', m.body)
  {
    var rest := HeaderBlock(m.headers) + CRLF + m.body;
    assert m.Printed() == m.line.Printed() + CRLF + rest;
    LineEndsAtCrlf(m.line.Printed(), rest);
    SplitPrintedLine(m.line);
    assert Parse(Started(q), m.Printed()) == Parse(LineRead(Started(q), m.line), rest);
    ParseHeaderBlock(LineRead(Started(q), m.line), m.headers, m.body);
  }

  /** The parse completes, the buffer is left empty, and every field is the message's; headers are
      stored over older ones, and a form post leaves its decoded body and form. */
  ghost predicate Recovered(q: Req, m: Message) {
    var r := Parse(Started(q), m.Printed());
    && r.Done? && r.rest == []
    && RequestLine(r.q.verb, r.q.path, r.q.version) == m.line
    && r.q.headers == Overlaid(q.headers, m.headers)
    && if m.body != [] && FormPost(r.q.verb, r.q.headers)
       then Form.Decoded(m.body, q.form) == Some(Form.Handled(r.q.body, r.q.form))
       else r.q.body == m.body && r.q.form == q.form
  }

  /** Parsing undoes printing for every method, path, version and non-empty list of headers, with a
      body of at least three octets that is no form, or no body and none kept from before. */
  lemma ParsingUndoesPrinting(q: Req, m: Message)
    requires m.WellFormed() && m.headers != []
    requires |m.body| >= 3 || (m.body == [] && q.body == [])
    requires !FormPost(m.line.verb, Overlaid(q.headers, m.headers))
    ensures Recovered(q, m)
  {
    ParsePrinted(q, m);
  }

  /** The body a message needs to come through: three octets or more, in a form post without a '%' cut
      short; or one that the parser drops, when what is kept from before is what it would have left. */
  predicate Survives(q: Req, m: Message) {
    var isForm := FormPost(m.line.verb, Overlaid(q.headers, m.headers));
    if |m.body| >= 3 then isForm ==> Form.PercentsComplete(m.body, 0)
    else if |m.body| == 2 then if isForm then Form.TwoOctetsIdle(m.body, q.body, q.form) else q.body == m.body
    else m.body == [] && m.headers != [] && q.body == []
  }

  /** Exactly when a printed message is recovered. */
  lemma RecoveredIff(q: Req, m: Message)
    requires m.WellFormed()
    ensures Recovered(q, m) <==> Survives(q, m)
  {
    ParsePrinted(q, m);
    hide Parse, Form.TwoOctetsIdle;
    if FormPost(m.line.verb, Overlaid(q.headers, m.headers)) {
      Form.DecodedIff(m.body, q.form);
      if |m.body| == 2 {
        Form.TwoOctetsIdleIff(m.body, q.body, q.form);
      }
    }
  }

  /** Decoding a printed message writes past the end of its body exactly when it is a form post of
      three octets or more with a '%' cut short. */
  lemma PrintedOverrunsIff(q: Req, m: Message)
    requires m.WellFormed()
    ensures Parse(Started(q), m.Printed()) == OutOfRange
       <==> |m.body| >= 3 && FormPost(m.line.verb, Overlaid(q.headers, m.headers))
            && !Form.PercentsComplete(m.body, 0)
  {
    ParsePrinted(q, m);
    Form.DecodedIff(m.body, q.form);
  }

  /** The headers kept from earlier requests leave no trace exactly when the message names each of
      them itself. */
  lemma HeadersAreTheMessagesIff(q: Req, m: Message)
    requires m.WellFormed() && Parse(Started(q), m.Printed()).Done?
    ensures Parse(Started(q), m.Printed()).q.headers == Overlaid(map[], m.headers)
       <==> forall k :: k in q.headers ==> Names(m.headers, k)
  {
    ParsePrinted(q, m);
    forall k {
      OverlaidAt(q.headers, m.headers, k);
    }
    OverlaidVanishesIff(q.headers, m.headers);
  }

  ghost predicate Names(hs: seq<Header>, k: bytes) {
    exists i :: 0 <= i < |hs| && hs[i].name == k
  }

  ghost predicate OverlaysAt(m: Headers, hs: seq<Header>, k: bytes) {
    var r, r0 := Overlaid(m, hs), Overlaid(map[], hs);
    && (k in r0 <==> Names(hs, k)) && (k in r <==> Names(hs, k) || k in m)
    && (k in r ==> r[k] == if Names(hs, k) then r0[k] else m[k])
  }

  lemma {:induction false} OverlaidOver(m: Headers, m': Headers, hs: seq<Header>, k: bytes)
    requires Names(hs, k)
    ensures k in Overlaid(m, hs) && k in Overlaid(m', hs) && Overlaid(m, hs)[k] == Overlaid(m', hs)[k]
    decreases |hs|
  {
    var n, n' := m[hs[0].name := hs[0].value], m'[hs[0].name := hs[0].value];
    if Names(hs[1..], k) {
      OverlaidOver(n, n', hs[1..], k);
    } else {
      assert forall i :: 1 <= i < |hs| ==> hs[i] == hs[1..][i - 1];
      OverlaidElsewhere(n, hs[1..], k);
      OverlaidElsewhere(n', hs[1..], k);
    }
  }

  lemma {:induction false} OverlaidElsewhere(m: Headers, hs: seq<Header>, k: bytes)
    requires !Names(hs, k)
    ensures k in Overlaid(m, hs) <==> k in m
    ensures k in m ==> Overlaid(m, hs)[k] == m[k]
    decreases |hs|
  {
    if hs != [] {
      assert hs[0].name != k;
      assert forall i :: 0 <= i < |hs| - 1 ==> hs[1..][i] == hs[i + 1];
      OverlaidElsewhere(m[hs[0].name := hs[0].value], hs[1..], k);
    }
  }

  lemma OverlaidAt(m: Headers, hs: seq<Header>, k: bytes)
    ensures OverlaysAt(m, hs, k)
  {
    if Names(hs, k) {
      OverlaidOver(m, map[], hs, k);
    } else {
      OverlaidElsewhere(m, hs, k);
      OverlaidElsewhere(map[], hs, k);
    }
  }

  lemma OverlaidVanishesIff(m: Headers, hs: seq<Header>)
    requires forall k :: OverlaysAt(m, hs, k)
    ensures Overlaid(m, hs) == Overlaid(map[], hs) <==> forall k :: k in m ==> Names(hs, k)
  {
    var r, r0 := Overlaid(m, hs), Overlaid(map[], hs);
    if forall k :: k in m ==> Names(hs, k) {
      forall k ensures (k in r <==> k in r0) && (k in r ==> r[k] == r0[k]) {
        assert OverlaysAt(m, hs, k);
      }
      assert r.Keys == r0.Keys;
    } else {
      var k :| k in m && !Names(hs, k);
      assert OverlaysAt(m, hs, k);
    }
  }

  /** An earlier form post turns a later POST that has no Content-Type into one. */
  lemma OldHeaderMakesAForm(q: Req, m: Message)
    requires m.WellFormed() && |m.body| >= 3 && m.line.verb == POST && !Names(m.headers, CONTENT_TYPE)
    requires CONTENT_TYPE in q.headers && q.headers[CONTENT_TYPE] == FORM_TYPE
    ensures !FormPost(m.line.verb, Overlaid(map[], m.headers))
    ensures Recovered(q, m) <==> Form.PercentsComplete(m.body, 0)
  {
    OverlaidElsewhere(q.headers, m.headers, CONTENT_TYPE);
    OverlaidElsewhere(map[], m.headers, CONTENT_TYPE);
    hide Recovered;
    RecoveredIff(q, m);
  }

  /** Printed messages that make the assert fail: no headers and no body, or a body of one octet. */
  lemma PrintedTripsIff(q: Req, m: Message)
    requires m.WellFormed()
    ensures Parse(Started(q), m.Printed()) == Tripped
       <==> |m.body| == 1 || (m.body == [] && m.headers == [])
  {
    ParsePrinted(q, m);
  }

  // ----- Framing: all inputs, printed or not -----

  function Lines(ls: seq<bytes>): bytes {
    if ls == [] then [] else ls[0] + CRLF + Lines(ls[1..])
  }

  ghost predicate HeaderLine(line: bytes) {
    SplitHeader(line).Some?
  }

  /** CRLF-terminated header lines, and then either nothing at all, or a tail of two octets, or a line
      that is no header and a longer tail. */
  ghost predicate HeadFramed(ls: seq<bytes>, tail: bytes) {
    && (forall i :: 0 <= i < |ls| ==> NoCrlf(ls[i]))
    && (forall i :: 0 <= i < |ls| - 1 ==> HeaderLine(ls[i]))
    && if ls == [] then tail == []
       else |tail| == 2 || (|tail| > 2 && !HeaderLine(ls[|ls| - 1]))
  }

  /** A CRLF-terminated first line; unless that is no request line, a framed head follows it. */
  ghost predicate FramedAs(input: bytes, first: bytes, ls: seq<bytes>, tail: bytes) {
    && input == first + CRLF + (Lines(ls) + tail) && NoCrlf(first)
    && (SplitRequestLine(first).Some? ==> HeadFramed(ls, tail))
  }

  ghost predicate Framed(input: bytes) {
    exists first, ls, tail :: FramedAs(input, first, ls, tail)
  }

  lemma LinesLength(ls: seq<bytes>)
    requires ls != []
    ensures |Lines(ls)| >= 2
  {
  }

  /** A framed head of two lines or more begins with a header and goes on framed. */
  lemma FramedRest(ls: seq<bytes>, tail: bytes)
    requires |ls| >= 2 && HeadFramed(ls, tail)
    ensures NoCrlf(ls[0]) && HeaderLine(ls[0]) && HeadFramed(ls[1..], tail)
  {
    hide HeaderLine, NoCrlf;
    assert forall i :: 0 <= i < |ls| - 1 ==> ls[1..][i] == ls[i + 1];
  }

  /** The headers that a framed head stores over those kept from before. */
  function LinesRead(m: Headers, ls: seq<bytes>): Headers
    decreases |ls|
  {
    if ls == [] then m
    else
      match SplitHeader(ls[0])
      case None => LinesRead(m, ls[1..])
      case Some(h) => LinesRead(m[h.name := h.value], ls[1..])
  }

  /** What parsing makes of a framed head. */
  ghost function HeadResult(q: Req, ls: seq<bytes>, tail: bytes): Result {
    var q' := q.(headers := LinesRead(q.headers, ls));
    if ls == [] then Done(q, [])
    else if |tail| <= 2 then Done(q'.(phase := Finished), [])
    else BodyRead(q'.(phase := AtBody), tail)
  }

  lemma FramedHeadParses(q: Req, ls: seq<bytes>, tail: bytes)
    requires q.phase == AtHeaders && HeadFramed(ls, tail)
    ensures Parse(q, Lines(ls) + tail) == HeadResult(q, ls, tail)
  {
    if ls == [] {
      assert Lines(ls) + tail == [];
    } else {
      FramedLinesParse(q, ls, tail);
    }
  }

  lemma BodyParses(q: Req, tail: bytes)
    requires q.phase == AtBody && tail != []
    ensures Parse(q, tail) == BodyRead(q, tail)
  {
  }

  lemma LinesReadStep(q: Req, ls: seq<bytes>)
    requires ls != []
    ensures HeaderRead(q, ls[0]) == q.(headers := LinesRead(q.headers, [ls[0]]),
                                       phase := if HeaderLine(ls[0]) then q.phase else AtBody)
    ensures LinesRead(q.headers, ls) == LinesRead(HeaderRead(q, ls[0]).headers, ls[1..])
  {
  }

  lemma {:induction false} FramedLinesParse(q: Req, ls: seq<bytes>, tail: bytes)
    requires q.phase == AtHeaders && ls != [] && HeadFramed(ls, tail)
    ensures Parse(q, Lines(ls) + tail) == HeadResult(q, ls, tail)
    decreases |ls|
  {
    hide Parse, HeaderRead, HeaderLine, NoCrlf, LinesRead, BodyRead;
    var rest := Lines(ls[1..]) + tail;
    assert Lines(ls) + tail == ls[0] + CRLF + rest;
    TurnOnLine(q, ls[0], rest);
    LinesReadStep(q, ls);
    var q' := HeaderRead(q, ls[0]);
    if |ls| == 1 {
      assert rest == tail && ls == [ls[0]];
      if |tail| > 2 {
        BodyParses(q', tail);
      }
    } else {
      hide HeadFramed;
      FramedRest(ls, tail);
      LinesLength(ls[1..]);
      FramedLinesParse(q', ls[1..], tail);
    }
  }

  lemma {:induction false} ParsedHeadIsFramed(q: Req, input: bytes) returns (ls: seq<bytes>, tail: bytes)
    requires q.phase == AtHeaders && Parse(q, input) != Tripped
    ensures input == Lines(ls) + tail && HeadFramed(ls, tail)
    decreases |input|
  {
    if input == [] {
      return [], [];
    }
    var line, rest := FirstLine(q, input);
    TurnOnLine(q, line, rest);
    var q' := HeaderRead(q, line);
    if |rest| > 2 && HeaderLine(line) {
      var ls', tail' := ParsedHeadIsFramed(q', rest);
      return [line] + ls', tail';
    }
    ls, tail := [line], rest;
    assert Lines(ls) == line + CRLF + Lines([]) == line + CRLF;
  }

  /** Input that does not trip the assert at once begins with a CRLF-terminated line. */
  lemma FirstLine(q: Req, input: bytes) returns (line: bytes, rest: bytes)
    requires q.phase != AtBody && q.phase != Finished && input != [] && Parse(q, input) != Tripped
    ensures input == line + CRLF + rest && NoCrlf(line)
  {
    var i := FindCrlf(input);
    assert i + 2 <= |input|;
    CutAtCrlf(input);
    line, rest := input[..i], input[i + 2..];
  }

  lemma CutAtCrlf(input: bytes)
    requires FindCrlf(input) < |input|
    ensures var i := FindCrlf(input);
            i + 2 <= |input| && input == input[..i] + CRLF + input[i + 2..] && NoCrlf(input[..i])
  {
    var i := FindCrlf(input);
    hide FindCrlf;
    assert CrlfAt(input, i);
    NoCrlfBefore(input, i);
  }

  lemma NoCrlfBefore(input: bytes, i: nat)
    requires i <= |input| && forall k: nat :: k < i ==> !CrlfAt(input, k)
    ensures NoCrlf(input[..i])
  {
    forall k: nat ensures !CrlfAt(input[..i], k) {
      if k + 1 < i {
        assert !CrlfAt(input, k);
      }
    }
  }

  /** Input on which the assert holds is framed. */
  lemma ParsedIsFramed(q: Req, input: bytes) returns (first: bytes, ls: seq<bytes>, tail: bytes)
    requires input != [] && Parse(Started(q), input) != Tripped
    ensures FramedAs(input, first, ls, tail)
  {
    var rest;
    first, rest := FirstLine(Started(q), input);
    LineEndsAtCrlf(first, rest);
    ls, tail := [], rest;
    match SplitRequestLine(first) {
      case None =>
      case Some(l) => ls, tail := ParsedHeadIsFramed(LineRead(Started(q), l), rest);
    }
    assert Lines(ls) + tail == rest;
  }

  /** What parsing makes of framed input. */
  lemma FramedParses(q: Req, input: bytes, first: bytes, ls: seq<bytes>, tail: bytes)
    requires FramedAs(input, first, ls, tail)
    ensures var split := SplitRequestLine(first);
            Parse(Started(q), input) ==
              if split.None? then Rejected(Started(q).(code := BadRequest), Lines(ls) + tail)
              else HeadResult(LineRead(Started(q), split.value), ls, tail)
  {
    LineEndsAtCrlf(first, Lines(ls) + tail);
    match SplitRequestLine(first) {
      case None =>
      case Some(l) => FramedHeadParses(LineRead(Started(q), l), ls, tail);
    }
  }

  /** Read_Buff passes its assert on exactly the framed inputs. */
  lemma AssertHoldsIff(q: Req, input: bytes)
    requires input != []
    ensures Parse(Started(q), input) != Tripped <==> Framed(input)
  {
    hide Parse, FramedAs;
    if Parse(Started(q), input) != Tripped {
      var first, ls, tail := ParsedIsFramed(q, input);
    }
    if Framed(input) {
      var first, ls, tail :| FramedAs(input, first, ls, tail);
      FramedParses(q, input, first, ls, tail);
    }
  }

  /** A framed form post, by its own headers and those kept from before, with a '%' cut short in its
      body. */
  ghost predicate CutFormAs(q: Req, input: bytes, first: bytes, ls: seq<bytes>, tail: bytes) {
    && FramedAs(input, first, ls, tail) && SplitRequestLine(first).Some? && ls != [] && |tail| > 2
    && FormPost(SplitRequestLine(first).value.verb, LinesRead(q.headers, ls))
    && !Form.PercentsComplete(tail, 0)
  }

  ghost predicate CutForm(q: Req, input: bytes) {
    exists first, ls, tail :: CutFormAs(q, input, first, ls, tail)
  }

  lemma CutFormOverrunsIff(q: Req, input: bytes, first: bytes, ls: seq<bytes>, tail: bytes)
    requires FramedAs(input, first, ls, tail)
    ensures Parse(Started(q), input) == OutOfRange <==> CutFormAs(q, input, first, ls, tail)
  {
    hide FramedAs, Parse;
    FramedParses(q, input, first, ls, tail);
    Form.DecodedIff(tail, q.form);
  }

  /** On any input at all, parsing breaks if and only if the input is not framed, and then the assert
      ends the process, or is a form post whose body has a '%' cut short, and then decoding writes onto
      the body's terminator or past it, which leaves defined behaviour. */
  lemma ParsingBreaksIff(q: Req, input: bytes)
    requires input != []
    ensures Broken(Parse(Started(q), input)) <==> !Framed(input) || CutForm(q, input)
  {
    hide Parse, FramedAs;
    AssertHoldsIff(q, input);
    if Framed(input) {
      var first, ls, tail := ParsedIsFramed(q, input);
      CutFormOverrunsIff(q, input, first, ls, tail);
    }
    if CutForm(q, input) {
      var first, ls, tail :| CutFormAs(q, input, first, ls, tail);
      CutFormOverrunsIff(q, input, first, ls, tail);
    }
  }

  /** Nothing a parse leaves in phase, code and flags has any influence on the next one. */
  lemma RestartForgets(q: Req, input: bytes, phase: Phase, code: Code, tasks: bool, cgi: bool)
    ensures Parse(Restarted(q.(phase := phase, code := code)), input) == Parse(Restarted(q), input)
    ensures Parse(Started(q.(phase := phase, code := code, tasks := tasks, cgi := cgi)), input) == Parse(Started(q), input)
    ensures input != [] ==> Parse(Restarted(q), input) != Done(q.(phase := phase), input)
  {
    hide Parse;
    if input != [] {
      CompletedParseIsTotal(Restarted(q), input);
    }
  }

  // ----- The path -----

  /** What parsing has yet to find out about the path stays as it was. */
  ghost predicate PathUntouched(q: Req, q': Req) {
    q'.code == q.code && q'.tasks == q.tasks && q'.cgi == q.cgi && q'.suffix == q.suffix
  }

  lemma TurnKeeps(q: Req, input: bytes)
    requires input != [] && q.phase != Finished
    ensures var t := TurnOf(q, input);
            && (t.Again? ==> PathUntouched(q, t.q) && t.q.phase != AtRequestLine)
            && (t.Stop? && t.result.Done? ==> PathUntouched(q, t.result.q))
            && (t.Stop? && t.result.Rejected? ==> q.phase == AtRequestLine && t.result.q == q.(code := BadRequest))
  {
    hide SplitRequestLine, SplitHeader, FindCrlf, Form.Decoded, FormPost;
  }

  /** A parse that completes leaves code, flags and suffix alone; a rejected one leaves everything else. */
  lemma {:induction false} ParseKeeps(q: Req, input: bytes)
    ensures var r := Parse(q, input);
            && (r.Done? ==> PathUntouched(q, r.q))
            && (r.Rejected? ==> q.phase == AtRequestLine && r.q == q.(code := BadRequest))
    decreases |input|
  {
    if input != [] && q.phase != Finished {
      TurnKeeps(q, input);
      hide TurnOf;
      var t := TurnOf(q, input);
      if t.Again? {
        ParseKeeps(t.q, t.rest);
      }
    }
  }

  /** The page for bad requests is never served: a rejected request keeps the path of the request
      before it, already resolved, and no other reaches _Handle_Path with that code. */
  lemma BadRequestKeepsOldPath(q: Req, input: bytes, stat: Stat)
    ensures var r := PathResult(Parse(Started(q), input), stat);
            && (r.Rejected? ==> r.q == Started(q).(code := BadRequest))
            && (r.Done? ==> r.q.code != BadRequest)
  {
    hide Parse;
    ParseKeeps(Started(q), input);
  }

  /** What a completed request asks for: the login, the home page of a directory, or a named file;
      only a named file is ever reported missing or marked executable, and it is so exactly when stat
      says it. */
  lemma ServedPath(q: Req, stat: Stat)
    requires q.code == FileRequest && !q.tasks && !q.cgi
    ensures var q' := PathHandled(q, stat);
            var named := q.path != LOGIN && (q.path == [] || q.path[|q.path| - 1] != SLASH);
            && (q'.tasks <==> q.path == LOGIN)
            && (q'.code == NoResource <==> named && stat == Missing)
            && (q'.cgi <==> named && stat == Executable)
  {
    hide Text, AfterLastDot;
    RootDirectory();
  }

  /** The suffix is never the default: the root directory has dots in its own name. */
  lemma SuffixNeverDefaults(q: Req, stat: Stat)
    requires q.code != BadRequest && q.path != LOGIN && (q.path == [] || q.path[|q.path| - 1] != SLASH)
    ensures AfterLastDot(SRC_DIR + q.path).Some?
    ensures PathHandled(q, stat).suffix == AfterLastDot(SRC_DIR + q.path).value
  {
    hide Text, AfterLastDot;
    RootDirectory();
    assert (SRC_DIR + q.path)[0] == DOT;
  }

  lemma RootDirectory()
    ensures |SRC_DIR| > 0 && SRC_DIR[0] == DOT && SRC_DIR[|SRC_DIR| - 1] != SLASH
  {
  }
}
