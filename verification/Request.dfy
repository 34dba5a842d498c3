/** The line-driven request parser of src/httprequest.cpp: its value and turns, what _Handle_Path makes
    of the parsed path, and the class whose methods are proved to do so. */
module Request {
  import opened Bytes
  import opened ByteBuffer
  import Form

  function Text(s: string): (t: bytes)
    ensures |t| == |s|
    ensures forall i :: 0 <= i < |s| ==> t[i] == s[i] as int % 256
  {
    seq(|s|, i requires 0 <= i < |s| => s[i] as int % 256)
  }

  // ----- Cutting lines -----

  /** The first `c` in `s`, or the length of `s`. */
  function IndexOf(s: bytes, c: byte): (i: nat)
    ensures i <= |s| && c !in s[..i]
    ensures i < |s| ==> s[i] == c
  {
    if s == [] || s[0] == c then 0
    else
      var i := 1 + IndexOf(s[1..], c);
      assert s[..i] == [s[0]] + s[1..][..i - 1];
      i
  }

  predicate CrlfAt(s: bytes, i: nat) {
    i + 1 < |s| && s[i] == 13 && s[i + 1] == 10
  }

  ghost predicate NoCrlf(s: bytes) {
    forall i: nat :: !CrlfAt(s, i)
  }

  /** The first CRLF in `s`, or the length of `s`: the search of Read_Buff. */
  function FindCrlf(s: bytes): (i: nat)
    ensures i <= |s| && (i < |s| ==> CrlfAt(s, i))
    ensures forall k: nat :: k < i ==> !CrlfAt(s, k)
  {
    if s == [] || CrlfAt(s, 0) then 0
    else
      assert forall k: nat :: 0 < k ==> CrlfAt(s, k) == CrlfAt(s[1..], k - 1);
      1 + FindCrlf(s[1..])
  }

  const HTTP: bytes := Text("HTTP/")

  datatype RequestLine = RequestLine(verb: bytes, path: bytes, version: bytes) {
    function Printed(): bytes {
      verb + [SPACE] + path + [SPACE] + HTTP + version
    }

    ghost predicate SpaceFree() {
      SPACE !in verb && SPACE !in path && SPACE !in version
    }
  }

  lemma Rejoined(s: bytes, i: nat)
    requires i < |s|
    ensures s == s[..i] + [s[i]] + s[i + 1..]
  {
  }

  lemma PrintedBack(line: bytes, i: nat, path: bytes, version: bytes)
    requires i < |line| && line[i] == SPACE && line[i + 1..] == path + [SPACE] + HTTP + version
    ensures line == RequestLine(line[..i], path, version).Printed()
  {
    hide Text;
    Rejoined(line, i);
    assert line == line[..i] + [SPACE] + (path + [SPACE] + HTTP + version);
  }

  /** The pattern "^([^ ]*) ([^ ]*) HTTP/([^ ]*)$". */
  function SplitRequestLine(line: bytes): (r: Option<RequestLine>)
    ensures r.Some? ==> r.value.SpaceFree() && line == r.value.Printed()
  {
    var i := IndexOf(line, SPACE);
    if i == |line| then None
    else
      match SplitPathAndVersion(line[i + 1..])
      case None => None
      case Some(pv) =>
        PrintedBack(line, i, pv.0, pv.1);
        Some(RequestLine(line[..i], pv.0, pv.1))
  }

  /** What follows the method: a path, a space, "HTTP/" and a version. */
  function SplitPathAndVersion(s: bytes): (r: Option<(bytes, bytes)>)
    ensures r.Some? ==> SPACE !in r.value.0 && SPACE !in r.value.1
    ensures r.Some? ==> s == r.value.0 + [SPACE] + HTTP + r.value.1
  {
    var j := IndexOf(s, SPACE);
    if j == |s| then None
    else
      var last := s[j + 1..];
      if |last| < |HTTP| || last[..|HTTP|] != HTTP || SPACE in last[|HTTP|..] then None
      else
        Rejoined(s, j);
        assert last == HTTP + last[|HTTP|..];
        Some((s[..j], last[|HTTP|..]))
  }

  datatype Header = Header(name: bytes, value: bytes) {
    function Printed(): bytes {
      name + [COLON, SPACE] + value
    }
  }

  ghost predicate OneLine(s: bytes) {
    13 !in s && 10 !in s
  }

  /** The pattern "^([^:]*): ?(.*)$", where '.' matches neither CR nor LF. */
  function SplitHeader(line: bytes): (r: Option<Header>)
    ensures r.Some? ==> COLON !in r.value.name && OneLine(r.value.value)
    ensures r.Some? ==> line == r.value.Printed() || line == r.value.name + [COLON] + r.value.value
  {
    var i := IndexOf(line, COLON);
    if i == |line| then None
    else
      var rest := line[i + 1..];
      var value := if rest != [] && rest[0] == SPACE then rest[1..] else rest;
      Rejoined(line, i);
      assert line == line[..i] + [COLON] + rest;
      assert value == rest || rest == [SPACE] + value;
      if 13 in value || 10 in value then None else Some(Header(line[..i], value))
  }

  // ----- The parser's state and turns -----

  datatype Phase = AtRequestLine | AtHeaders | AtBody | Finished

  function Rank(p: Phase): nat {
    match p
    case AtRequestLine => 0
    case AtHeaders => 1
    case AtBody => 2
    case Finished => 3
  }

  datatype Code = FileRequest | BadRequest | NoResource

  type Headers = map<bytes, bytes>

  datatype Req = Req(phase: Phase, code: Code, verb: bytes, path: bytes, version: bytes,
                     body: bytes, headers: Headers, form: Form.FormMap,
                     tasks: bool, cgi: bool, suffix: bytes)

  /** Init: headers, form, body and path stay from before. */
  function Started(q: Req): Req {
    q.(phase := AtRequestLine, code := FileRequest, tasks := false, cgi := false)
  }

  /** The first two assignments of Read_Buff. */
  function Restarted(q: Req): Req {
    q.(phase := AtRequestLine, code := FileRequest)
  }

  datatype Result =
    | Done(q: Req, rest: bytes)
    | Rejected(q: Req, rest: bytes)
    | Tripped     // the assert of Update_Readp failed
    | OutOfRange  // _Handle_Form ran past the end of the body

  /** The parses that do not return: a failed assert ends the process, and a write onto the terminator
      of the body or past it leaves defined behaviour. */
  predicate Broken(r: Result) {
    r.Tripped? || r.OutOfRange?
  }

  datatype Turn = Again(q: Req, rest: bytes) | Stop(result: Result)

  const CONTENT_TYPE: bytes := Text("Content-Type")
  const FORM_TYPE: bytes := Text("application/x-www-form-urlencoded")
  const POST: bytes := Text("POST")

  predicate FormPost(verb: bytes, headers: Headers) {
    verb == POST && CONTENT_TYPE in headers && headers[CONTENT_TYPE] == FORM_TYPE
  }

  /** _Read_Body_Line and _Handle_Post_Body. */
  ghost function BodyRead(q: Req, line: bytes): (r: Result)
    ensures r.OutOfRange? || (r.Done? && r.rest == [] && r.q.phase == Finished)
  {
    if !FormPost(q.verb, q.headers) then Done(q.(body := line, phase := Finished), [])
    else
      match Form.Decoded(line, q.form)
      case None => OutOfRange
      case Some(h) => Done(q.(body := h.body, form := h.form, phase := Finished), [])
  }

  function HeaderRead(q: Req, line: bytes): Req {
    match SplitHeader(line)
    case Some(h) => q.(headers := q.headers[h.name := h.value])
    case None => q.(phase := AtBody)
  }

  /** One turn of the loop of Read_Buff. */
  ghost function TurnOf(q: Req, input: bytes): (t: Turn)
    requires input != [] && q.phase != Finished
    ensures t.Again? ==> |t.rest| < |input|
  {
    if q.phase == AtBody then Stop(BodyRead(q, input))
    else
      var i := FindCrlf(input);
      if i + 2 > |input| then Stop(Tripped)
      else
        var line, rest := input[..i], input[i + 2..];
        if q.phase == AtRequestLine then
          match SplitRequestLine(line)
          case None => Stop(Rejected(q.(code := BadRequest), rest))
          case Some(l) => Again(q.(verb := l.verb, path := l.path, version := l.version, phase := AtHeaders), rest)
        else
          var q' := HeaderRead(q, line);
          if |rest| < 2 then Stop(Tripped)
          else if |rest| == 2 then Stop(Done(q'.(phase := Finished), []))
          else Again(q', rest)
  }

  ghost function Parse(q: Req, input: bytes): Result
    decreases |input|
  {
    if input == [] || q.phase == Finished then Done(q, input)
    else
      match TurnOf(q, input)
      case Stop(result) => result
      case Again(q', rest) => Parse(q', rest)
  }

  /** Each turn takes octets away and never moves the phase back; once at the body it is the last. */
  lemma TurnsProgress(q: Req, input: bytes)
    requires input != [] && q.phase != Finished
    ensures var t := TurnOf(q, input);
            t.Again? ==> |t.rest| < |input| && Rank(q.phase) <= Rank(t.q.phase) < 3 && q.phase != AtBody
    ensures var t := TurnOf(q, input);
            t.Stop? && t.result.Done? ==> t.result.rest == [] && t.result.q.phase == Finished
  {
  }

  /** A parse that completes has consumed the whole buffer. */
  lemma {:induction false} CompletedParseIsTotal(q: Req, input: bytes)
    requires q.phase != Finished
    ensures Parse(q, input).Done? ==> Parse(q, input).rest == []
    decreases |input|
  {
    if input != [] {
      TurnsProgress(q, input);
      var t := TurnOf(q, input);
      if t.Again? {
        CompletedParseIsTotal(t.q, t.rest);
      }
    }
  }

  // ----- The path -----

  const SRC_DIR: bytes := Text("../wwwroot")
  const HOME_PAGE: bytes := Text("index.html")
  const LOGIN: bytes := Text("/login")
  const SLASH: byte := 47
  const DOT: byte := 46

  /** What stat finds at a path. */
  datatype Stat = Missing | Directory | Executable | Ordinary

  /** What follows the last '.', or "html" if there is none. */
  function SuffixOf(path: bytes): bytes {
    match AfterLastDot(path)
    case None => Text("html")
    case Some(suffix) => suffix
  }

  function AfterLastDot(path: bytes): (r: Option<bytes>)
    ensures r.None? <==> DOT !in path
    ensures r.Some? ==> DOT !in r.value && |r.value| < |path| && path == path[..|path| - |r.value| - 1] + [DOT] + r.value
  {
    if path == [] then None
    else
      var n := |path| - 1;
      if path[n] == DOT then Some([])
      else
        match AfterLastDot(path[..n])
        case None => None
        case Some(suffix) => Some(suffix + [path[n]])
  }

  /** _Handle_Path. */
  function PathHandled(q: Req, stat: Stat): Req {
    var path := if q.code == BadRequest then SRC_DIR + Text("400.html") else q.path;
    if path == LOGIN then q.(path := path, tasks := true, code := FileRequest)
    else
      var full := SRC_DIR + path;
      if full[|full| - 1] == SLASH then q.(path := full + HOME_PAGE)
      else
        var q' := q.(path := full, suffix := SuffixOf(full), code := FileRequest);
        match stat
        case Missing => q'.(path := SRC_DIR + Text("/404.html"), code := NoResource)
        case Directory => q'.(path := full + [SLASH] + HOME_PAGE)
        case Executable => q'.(cgi := true)
        case Ordinary => q'
  }

  /** Read_Buff handles the path of a completed parse; a rejected one returns before that. */
  function PathResult(r: Result, stat: Stat): Result {
    match r
    case Done(q, rest) => Done(PathHandled(q, stat), rest)
    case _ => r
  }

  // ----- The class -----

  datatype Outcome = Completed | RejectedLine | AssertFailed | StringOverrun

  class HttpRequest {
    var phase: Phase
    var code: Code
    var verb: bytes
    var path: bytes
    var version: bytes
    var body: bytes
    var headers: Headers
    var form: Form.FormMap
    var tasks: bool
    var cgi: bool
    var suffix: bytes

    ghost function View(): Req
      reads this
    {
      Req(phase, code, verb, path, version, body, headers, form, tasks, cgi, suffix)
    }

    constructor ()
      ensures View() == Req(AtRequestLine, FileRequest, [], [], [], [], map[], map[], false, false, [])
    {
      phase, code := AtRequestLine, FileRequest;
      verb, path, version, body := [], [], [], [];
      headers, form := map[], map[];
      tasks, cgi, suffix := false, false, [];
    }

    method Init()
      modifies this
      ensures View() == Started(old(View()))
    {
      phase, tasks, cgi, code := AtRequestLine, false, false, FileRequest;
    }

    method ReadRequestLine(line: bytes) returns (ok: bool)
      requires phase == AtRequestLine
      modifies this
      ensures ok == SplitRequestLine(line).Some?
      ensures View() == match SplitRequestLine(line)
                        case None => old(View())
                        case Some(l) => old(View()).(verb := l.verb, path := l.path, version := l.version,
                                                     phase := AtHeaders)
    {
      var split := SplitRequestLine(line);
      ok := split.Some?;
      if ok {
        verb, path, version := split.value.verb, split.value.path, split.value.version;
        phase := AtHeaders;
      }
    }

    method ReadHeaderLine(line: bytes)
      requires phase == AtHeaders
      modifies this
      ensures View() == HeaderRead(old(View()), line)
    {
      var split := SplitHeader(line);
      if split.Some? {
        headers := headers[split.value.name := split.value.value];
      } else {
        phase := AtBody;
      }
    }

    /** Decodes `body` where it stands. False when a '%' near its end makes it write past the end. */
    method HandleForm() returns (ok: bool)
      modifies this`body, this`form
      ensures ok == Form.PercentsComplete(old(body), 0) == Form.Decoded(old(body), old(form)).Some?
      ensures ok ==> Form.Handled(body, form) == Form.Decoded(old(body), old(form)).value
    {
      Form.DecodedIff(body, form);
      if body == [] {
        return true;
      }
      var key: bytes := [];
      var i, j, n := 0, 0, |body|;
      while i < n
        invariant j <= i <= n == |body|
        invariant Form.Scan(old(body), 0, 0, [], old(form)) == Form.Scan(body, i, j, key, form)
      {
        var ch := body[i];
        if ch == Form.EQUALS {
          key := body[j..i];
          j := i + 1;
        } else if ch == Form.PLUS {
          body := body[i := SPACE];
        } else if ch == Form.PERCENT {
          if i + 2 >= n {
            return false;
          }
          var two := Form.TensAndUnits(body[i + 1], body[i + 2]);
          body := body[i + 2 := two[1]];
          body := body[i + 1 := two[0]];
          i := i + 2;
        } else if ch == Form.AMPERSAND {
          form := form[key := body[j..i]];
          j := i + 1;
        }
        i := i + 1;
      }
      if key !in form && j < i {
        form := form[key := body[j..]];
      }
      ok := true;
    }

    method ReadBodyLine(line: bytes) returns (ok: bool)
      modifies this
      ensures if ok then BodyRead(old(View()), line).Done? else BodyRead(old(View()), line) == OutOfRange
      ensures ok ==> View() == BodyRead(old(View()), line).q
    {
      body := line;
      ok := true;
      if verb == POST && CONTENT_TYPE in headers && headers[CONTENT_TYPE] == FORM_TYPE {
        ok := HandleForm();
      }
      phase := Finished;
    }

    method HandlePath(stat: Stat)
      modifies this
      ensures View() == PathHandled(old(View()), stat)
    {
      hide Text, AfterLastDot, SuffixOf;
      if code == BadRequest {
        path := SRC_DIR + Text("400.html");
      }
      if path == LOGIN {
        tasks := true;
        code := FileRequest;
        return;
      }
      path := SRC_DIR + path;
      if path[|path| - 1] == SLASH {
        path := path + HOME_PAGE;
        return;
      }
      suffix := SuffixOf(path);
      if stat == Missing {
        path := SRC_DIR + Text("/404.html");
        code := NoResource;
        return;
      }
      if stat == Directory {
        path := path + [SLASH];
        path := path + HOME_PAGE;
      } else if stat == Executable {
        cgi := true;
      }
      code := FileRequest;
    }

    /** Looks a field of the form up; a field that is not there is put in, with an empty value. */
    method SelectForm(key: bytes) returns (value: bytes)
      modifies this`form
      ensures form == Form.WithDefault(old(form), key)
      ensures value == Form.Field(old(form), key)
      ensures key in old(form) ==> form == old(form)
      ensures form.Keys == old(form).Keys + {key} && forall k :: k in old(form) ==> form[k] == old(form)[k]
    {
      if key !in form {
        form := form[key := []];
      }
      value := form[key];
    }

    /** Whether this object and `buff` are where `r` says a turn or a whole parse ends. */
    ghost predicate EndsAs(r: Result, outcome: Outcome, buff: Buffer)
      requires buff.Valid()
      reads this, buff, buff.buffer
    {
      match r
      case Done(q, rest) => outcome == Completed && View() == q && buff.View().content == rest
      case Rejected(q, rest) => outcome == RejectedLine && View() == q && buff.View().content == rest
      case Tripped => outcome == AssertFailed
      case OutOfRange => outcome == StringOverrun
    }

    /** The turn at the body: it is the whole rest of the buffer. */
    method TakeBody(buff: Buffer) returns (outcome: Outcome)
      requires buff.Valid() && buff.View().content != [] && phase == AtBody
      modifies this, buff, buff.buffer
      ensures buff.Valid() && buff.buffer == old(buff.buffer)
      ensures EndsAs(BodyRead(old(View()), old(buff.View().content)), outcome, buff)
      ensures buff.View() == Cleared(old(buff.View()))
    {
      hide BodyRead;
      var all := buff.buffer[buff.readp..buff.writep];
      buff.ReleaseAllBuff();
      var ok := ReadBodyLine(all);
      outcome := if ok then Completed else StringOverrun;
    }

    /** The body of the loop of Read_Buff. */
    method TakeTurn(buff: Buffer) returns (outcome: Outcome)
      requires buff.Valid() && buff.View().content != [] && phase != Finished
      modifies this, buff, buff.buffer
      ensures buff.Valid() && buff.buffer == old(buff.buffer)
      ensures var t := TurnOf(old(View()), old(buff.View().content));
              if t.Stop? then EndsAs(t.result, outcome, buff) else EndsAs(Done(t.q, t.rest), outcome, buff)
    {
      hide BodyRead, HeaderRead, SplitRequestLine, SplitHeader, FindCrlf, Text, PathHandled;
      outcome := Completed;
      if phase == AtBody {
        outcome := TakeBody(buff);
        return;
      }
      var all := buff.buffer[buff.readp..buff.writep];
      var i := FindCrlf(all);
      var line := all[..i];
      if |line| + 2 > buff.ReadableSize() {
        return AssertFailed;
      }
      buff.UpdateReadp(|line| + 2);
      if phase == AtRequestLine {
        var ok := ReadRequestLine(line);
        if !ok {
          code := BadRequest;
          return RejectedLine;
        }
      } else {
        outcome := TakeHeader(buff, line);
      }
    }

    /** A header line, already dropped from the buffer, and the test for what follows it. */
    method TakeHeader(buff: Buffer, line: bytes) returns (outcome: Outcome)
      requires buff.Valid() && phase == AtHeaders
      modifies this, buff
      ensures buff.Valid() && buff.buffer == old(buff.buffer)
      ensures var q', rest := HeaderRead(old(View()), line), old(buff.View().content);
              EndsAs(if |rest| < 2 then Tripped
                     else if |rest| == 2 then Done(q'.(phase := Finished), [])
                     else Done(q', rest), outcome, buff)
    {
      hide HeaderRead, Text;
      outcome := Completed;
      ReadHeaderLine(line);
      if buff.ReadableSize() <= 2 {
        if 2 > buff.ReadableSize() {
          return AssertFailed;
        }
        buff.UpdateReadp(2);
        phase := Finished;
      }
    }

    /** Parses what `buff` holds and handles the path. The precondition is the assert of the
        original; `stat` is what the file system says of the path. */
    method ReadBuff(buff: Buffer, stat: Stat) returns (outcome: Outcome)
      requires buff.Valid() && buff.View().content != []
      modifies this, buff, buff.buffer
      ensures buff.Valid() && buff.buffer == old(buff.buffer)
      ensures EndsAs(PathResult(Parse(Restarted(old(View())), old(buff.View().content)), stat), outcome, buff)
    {
      hide TurnOf;
      phase, code := AtRequestLine, FileRequest;
      ghost var expected := Parse(View(), buff.View().content);
      while buff.ReadableSize() > 0 && phase != Finished
        invariant buff.Valid() && buff.buffer == old(buff.buffer)
        invariant Parse(View(), buff.View().content) == expected
        decreases buff.ReadableSize()
      {
        TurnsProgress(View(), buff.View().content);
        outcome := TakeTurn(buff);
        if outcome != Completed {
          return;
        }
      }
      hide Parse;
      HandlePath(stat);
      outcome := Completed;
    }
  }
}
