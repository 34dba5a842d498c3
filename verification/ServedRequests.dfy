/** What whole requests come to: the path that is served, the form that is kept, the fields that a login
    compares, and some requests octet by octet. */
module ServedRequests {
  import opened Bytes
  import opened Request
  import opened RequestLaws
  import Connector
  import Form

  // ----- The path -----

  /** The path asked for is that of a file, not of a directory. */
  predicate NamesFile(asked: bytes) {
    asked == [] || asked[|asked| - 1] != SLASH
  }

  /** The path `p` served for `asked`: below the root and never a directory; the home page of the
      directory asked for, with or without its last slash; the named file itself; or the page for
      missing ones. */
  ghost predicate Serves(asked: bytes, stat: Stat, p: bytes) {
    var root := Text("../wwwroot");
    && root <= p && NamesFile(p)
    && (!NamesFile(asked) || stat == Directory ==>
          exists dir: bytes :: p == root + dir + Text("/index.html") && (asked == dir || asked == dir + [SLASH]))
    && (NamesFile(asked) && (stat == Ordinary || stat == Executable) ==> p == root + asked)
    && (NamesFile(asked) && stat == Missing ==> p == root + Text("/404.html"))
  }

  lemma TextJoins(s: string, t: string)
    ensures Text(s) + Text(t) == Text(s + t)
  {
  }

  lemma LastOf(a: bytes, b: bytes)
    requires b != []
    ensures (a + b)[|a + b| - 1] == b[|b| - 1]
  {
  }

  lemma Names()
    ensures |SRC_DIR| == 10 && SRC_DIR[9] != SLASH && SRC_DIR == Text("../wwwroot")
    ensures Text("/index.html") == [SLASH] + HOME_PAGE && HOME_PAGE[|HOME_PAGE| - 1] != SLASH && |HOME_PAGE| == 10
    ensures |Text("/404.html")| == 9 && Text("/404.html")[8] != SLASH
    ensures LOGIN == Text("/login")
  {
    TextJoins("/", "index.html");
    assert Text("/") == [SLASH];
    assert "/" + "index.html" == "/index.html";
  }

  lemma FullPathNames(asked: bytes)
    ensures (SRC_DIR + asked)[|SRC_DIR + asked| - 1] == SLASH <==> !NamesFile(asked)
  {
    Names();
    if asked != [] {
      LastOf(SRC_DIR, asked);
    }
  }

  lemma ServesHomePage(asked: bytes, stat: Stat, dir: bytes)
    requires !NamesFile(asked) || stat == Directory
    requires asked == dir || asked == dir + [SLASH]
    ensures Serves(asked, stat, SRC_DIR + dir + [SLASH] + HOME_PAGE)
  {
    hide Text;
    Names();
    var p := SRC_DIR + dir + [SLASH] + HOME_PAGE;
    assert p == SRC_DIR + dir + Text("/index.html");
    LastOf(SRC_DIR + dir + [SLASH], HOME_PAGE);
    assert SRC_DIR == p[..|SRC_DIR|];
  }

  /** What _Handle_Path makes of the path of a request that is no login. */
  lemma PathIsServed(q: Req, stat: Stat)
    requires q.code == FileRequest && q.path != Text("/login")
    ensures Serves(q.path, stat, PathHandled(q, stat).path)
  {
    hide Text, SuffixOf;
    Names();
    FullPathNames(q.path);
    if !NamesFile(q.path) {
      var dir := q.path[..|q.path| - 1];
      assert q.path == dir + [SLASH];
      ServesHomePage(q.path, stat, dir);
      assert SRC_DIR + q.path + HOME_PAGE == SRC_DIR + dir + [SLASH] + HOME_PAGE;
    } else if stat == Directory {
      ServesHomePage(q.path, stat, q.path);
    } else if stat == Missing {
      LastOf(SRC_DIR, Text("/404.html"));
    }
  }

  /** Any completed request, whatever came before it, comes to what its own first line asks for: the
      login, with its flag, or a path that is served; and the code and the executable flag are its own. */
  lemma CompletedRequestServes(q: Req, input: bytes, stat: Stat) returns (line: RequestLine)
    requires input != [] && Parse(Started(q), input).Done?
    ensures line.SpaceFree() && line.Printed() + CRLF <= input
    ensures var r := PathResult(Parse(Started(q), input), stat).q;
            && r.verb == line.verb && r.version == line.version
            && (r.tasks <==> line.path == Text("/login"))
            && (if line.path == Text("/login") then r.path == line.path else Serves(line.path, stat, r.path))
            && (r.code == NoResource <==> line.path != Text("/login") && NamesFile(line.path) && stat == Missing)
            && (r.cgi <==> line.path != Text("/login") && NamesFile(line.path) && stat == Executable)
            && r.code != BadRequest
  {
    hide Parse, FramedAs, Text, PathHandled, Serves, SplitRequestLine, HeadResult;
    var first, ls, tail := ParsedIsFramed(q, input);
    FramedParses(q, input, first, ls, tail);
    line := SplitRequestLine(first).value;
    FirstLineFirst(input, first, ls, tail);
    ParseKeeps(Started(q), input);
    var asked := Parse(Started(q), input).q;
    HeadResultKeepsLine(LineRead(Started(q), line), ls, tail);
    Names();
    ServedPath(asked, stat);
    PathKeepsLine(asked, stat);
    if line.path != LOGIN {
      PathIsServed(asked, stat);
    }
  }

  lemma FirstLineFirst(input: bytes, first: bytes, ls: seq<bytes>, tail: bytes)
    requires FramedAs(input, first, ls, tail)
    ensures first + CRLF <= input
  {
  }

  lemma HeadResultKeepsLine(q: Req, ls: seq<bytes>, tail: bytes)
    ensures var r := HeadResult(q, ls, tail);
            r.Done? ==> r.q.verb == q.verb && r.q.path == q.path && r.q.version == q.version
  {
  }

  lemma PathKeepsLine(q: Req, stat: Stat)
    ensures var r := PathHandled(q, stat);
            && r.verb == q.verb && r.version == q.version && r.form == q.form && r.body == q.body
            && r.headers == q.headers && (q.path == LOGIN && q.code != BadRequest ==> r.path == q.path)
            && (q.code != BadRequest ==> r.code != BadRequest)
  {
    hide Text, SuffixOf;
  }

  // ----- Which bodies are forms -----

  /** A body is decoded exactly in a POST whose Content-Type, its own or one kept, is that of forms;
      any other request keeps its body as it is and the form as it was. */
  lemma OnlyFormPostsAreDecoded(q: Req, m: Message)
    requires m.WellFormed() && |m.body| >= 3
    ensures var headers := Overlaid(q.headers, m.headers);
            var r := Parse(Started(q), m.Printed());
            if m.line.verb == Text("POST") && Text("Content-Type") in headers
               && headers[Text("Content-Type")] == Text("application/x-www-form-urlencoded")
            then match Form.Decoded(m.body, q.form)
                 case None => r == OutOfRange
                 case Some(h) => r.Done? && r.q.body == h.body && r.q.form == h.form
            else r.Done? && r.q.body == m.body && r.q.form == q.form
  {
    hide Text;
    ParsePrinted(q, m);
  }

  /** A POST of another type is none. */
  lemma JsonIsNoForm(q: Req, m: Message)
    requires m.WellFormed() && |m.body| >= 3
    requires Text("Content-Type") in Overlaid(q.headers, m.headers)
    requires Overlaid(q.headers, m.headers)[Text("Content-Type")] == Text("application/json")
    ensures var r := Parse(Started(q), m.Printed()); r.Done? && r.q.body == m.body && r.q.form == q.form
  {
    OnlyFormPostsAreDecoded(q, m);
    assert |Text("application/json")| != |Text("application/x-www-form-urlencoded")|;
  }

  // ----- A login -----

  /** A form post to the login, on a request with an empty form, leaves exactly its pairs; a login looks
      its two fields up and finds the values that were sent. */
  lemma LoginComparesWhatWasSent(q: Req, m: Message, pairs: seq<Form.Pair>, esc: set<byte>, stat: Stat, u: nat, p: nat)
    requires m.WellFormed() && q.form == map[]
    requires m.line.verb == Text("POST") && m.line.path == Text("/login")
    requires FormPost(m.line.verb, Overlaid(q.headers, m.headers))
    requires Form.Escapes(esc) && Form.PlainPairs(pairs, esc) && Form.DistinctKeys(pairs)
    requires pairs != [] && pairs[|pairs| - 1].value != [] && m.body == Form.Joined(pairs, esc)
    requires u < |pairs| && pairs[u].key == Text("username")
    requires p < |pairs| && pairs[p].key == Text("pwd")
    ensures var r := Parse(Started(q), m.Printed());
            && r.Done?
            && var answered := Connector.Answered(r, stat);
               && answered.tasks && answered.form == Form.Stored(map[], pairs)
               && Form.Field(answered.form, Text("username")) == pairs[u].value
               && Form.Field(answered.form, Text("pwd")) == pairs[p].value
  {
    hide Text, Parse, PathHandled, Form.Decoded, Form.Joined;
    LoginParses(q, m, pairs, esc, u);
    var r := Parse(Started(q), m.Printed());
    PathKeepsLine(r.q, stat);
    LoginPath(r.q, stat);
    Form.StoredValue(map[], pairs, u);
    Form.StoredValue(map[], pairs, p);
    assert Connector.LookedUp(PathHandled(r.q, stat)).form == r.q.form;
  }

  lemma LoginPath(q: Req, stat: Stat)
    requires q.path == Text("/login") && q.code == FileRequest
    ensures PathHandled(q, stat).tasks
  {
  }

  lemma LoginParses(q: Req, m: Message, pairs: seq<Form.Pair>, esc: set<byte>, u: nat)
    requires m.WellFormed() && q.form == map[]
    requires FormPost(m.line.verb, Overlaid(q.headers, m.headers))
    requires Form.Escapes(esc) && Form.PlainPairs(pairs, esc) && Form.DistinctKeys(pairs)
    requires pairs != [] && pairs[|pairs| - 1].value != [] && m.body == Form.Joined(pairs, esc)
    requires u < |pairs| && pairs[u].key == Text("username")
    ensures var r := Parse(Started(q), m.Printed());
            r.Done? && r.q.form == Form.Stored(map[], pairs) && r.q.path == m.line.path && r.q.code == FileRequest
  {
    hide Text, Parse, Form.Decoded, Form.Joined, Form.DistinctKeys;
    ParsePrinted(q, m);
    Form.JoinedLength(pairs, esc, u);
    assert |Text("username")| == 8;
    Form.DecodingUndoesEncodingIff(pairs, esc) by {
      assert Form.DistinctKeys(pairs);
    }
    ParseKeeps(Started(q), m.Printed());
  }

  // ----- Requests octet by octet -----

  /** "GET / HTTP/1.1" with the header "Host: a". */
  function HomeRequest(): Message {
    Message(RequestLine(Text("GET"), Text("/"), Text("1.1")),
            [Header(Text("Host"), Text("a"))], [])
  }

  lemma TextFree(s: string, c: char)
    requires c as int < 128 && forall i :: 0 <= i < |s| ==> s[i] as int < 128 && s[i] != c
    ensures c as int !in Text(s)
  {
  }

  lemma HomeRequestIsWellFormed()
    ensures HomeRequest().WellFormed()
  {
    var m := HomeRequest();
    TextFree("GET", ' ');
    TextFree("/", ' ');
    TextFree("1.1", ' ');
    TextFree("GET", '\r');
    TextFree("/", '\r');
    TextFree("HTTP/", '\r');
    TextFree("1.1", '\r');
    TextFree("Host", ':');
    TextFree("Host", '\r');
    TextFree("a", '\r');
    TextFree("a", '\n');
    assert 13 !in m.line.Printed();
    assert NoCrlf(m.line.Printed()) && NoCrlf(m.headers[0].name);
  }

  /** It is framed and parsed to the end, whatever requests came before it. */
  lemma HomeRequestParses(q: Req)
    ensures Parse(Started(q), HomeRequest().Printed()).Done?
    ensures Framed(HomeRequest().Printed()) && HomeRequest().Printed() != []
  {
    hide Parse, Text, Framed;
    HomeRequestIsWellFormed();
    var m := HomeRequest();
    ParsePrinted(q, m);
    assert |m.Printed()| >= |CRLF|;
    AssertHoldsIff(q, m.Printed());
  }

  /** The octets of that request, line by line. */
  function HomeOctets(): bytes {
    Text("GET / HTTP/1.1\r\n") + Text("Host: a\r\n") + Text("\r\n")
  }

  lemma HomeRequestOctets()
    ensures HomeRequest().Printed() == HomeOctets()
  {
    hide Text;
    Marks();
    HomeLine();
    TextJoins("Host", ": ");
    TextJoins("Host: ", "a");
    TextJoins("Host: a", "\r\n");
    OneHeaderBlock(HomeRequest().headers[0]);
  }

  lemma HomeLine()
    ensures HomeRequest().line.Printed() + CRLF == Text("GET / HTTP/1.1\r\n")
  {
    hide Text;
    Marks();
    TextJoins("GET", " ");
    TextJoins("GET ", "/");
    TextJoins("GET /", " ");
    TextJoins("GET / ", "HTTP/");
    TextJoins("GET / HTTP/", "1.1");
    TextJoins("GET / HTTP/1.1", "\r\n");
  }

  lemma Marks()
    ensures [SPACE] == Text(" ") && [COLON, SPACE] == Text(": ") && CRLF == Text("\r\n") && HTTP == Text("HTTP/")
  {
  }

  lemma OneHeaderBlock(h: Header)
    ensures HeaderBlock([h]) == h.name + [COLON, SPACE] + h.value + CRLF
  {
    assert [h][1..] == [];
    assert HeaderBlock([]) == [];
  }

  /** Whatever came before them, these octets are answered with the home page. */
  lemma HomePageIsServed(q: Req, stat: Stat)
    ensures var r := PathResult(Parse(Started(q), HomeOctets()), stat);
            r.Done? && r.q.path == Text("../wwwroot/index.html") && r.q.code == FileRequest && !r.q.tasks
  {
    hide Text, Parse, SuffixOf;
    HomeRequestOctets();
    HomeRequestParses(q);
    HomeRequestIsWellFormed();
    ParsePrinted(q, HomeRequest());
    ParseKeeps(Started(q), HomeRequest().Printed());
    Names();
    TextJoins("../wwwroot", "/");
    TextJoins("../wwwroot/", "index.html");
    assert Text("/") == [SLASH] && |LOGIN| == 6;
    FullPathNames([SLASH]);
    assert "../wwwroot" + "/" == "../wwwroot/" && "../wwwroot/" + "index.html" == "../wwwroot/index.html";
  }

  /** A login: user bob with password x. */
  function LoginRequest(): Message {
    Message(RequestLine(Text("POST"), Text("/login"), Text("1.1")),
            [Header(Text("Content-Type"), Text("application/x-www-form-urlencoded"))],
            Text("username=bob&pwd=x"))
  }

  function LoginPairs(): seq<Form.Pair> {
    [Form.Pair(Text("username"), Text("bob")), Form.Pair(Text("pwd"), Text("x"))]
  }

  lemma LoginPairsArePlain()
    ensures Form.PlainPairs(LoginPairs(), MARKS) && Form.DistinctKeys(LoginPairs())
    ensures Form.Joined(LoginPairs(), MARKS) == Text("username=bob&pwd=x")
  {
    AsIs("username");
    AsIs("bob");
    AsIs("pwd");
    AsIs("x");
    assert |Text("username")| == 8 && |Text("pwd")| == 3;
    hide Text, Form.Encoded, Form.Plain, Form.Joined;
    TwoJoined(LoginPairs()[0], LoginPairs()[1]);
    LoginBody();
  }

  lemma TwoJoined(a: Form.Pair, b: Form.Pair)
    ensures Form.Joined([a, b], MARKS) ==
            Form.Encoded(a.key, MARKS) + [Form.EQUALS] + Form.Encoded(a.value, MARKS) + [Form.AMPERSAND]
            + (Form.Encoded(b.key, MARKS) + [Form.EQUALS] + Form.Encoded(b.value, MARKS))
  {
    hide Form.Encoded;
    assert [a, b][1..] == [b];
    assert Form.Joined([b], MARKS) == Form.JoinedPair(b, MARKS) + [] == Form.JoinedPair(b, MARKS);
    assert Form.Joined([a, b], MARKS) == Form.JoinedPair(a, MARKS) + ([Form.AMPERSAND] + Form.JoinedPair(b, MARKS));
  }

  lemma LoginBody()
    ensures Text("username") + [Form.EQUALS] + Text("bob") + [Form.AMPERSAND] + (Text("pwd") + [Form.EQUALS] + Text("x"))
         == Text("username=bob&pwd=x")
  {
    Signs();
    hide Text;
    TextJoins("username", "=");
    TextJoins("username=", "bob");
    TextJoins("username=bob", "&");
    TextJoins("pwd", "=");
    TextJoins("pwd=", "x");
    TextJoins("username=bob&", "pwd=x");
  }

  /** What an encoder has to escape. */
  const MARKS: set<byte> := {Form.EQUALS, Form.AMPERSAND, Form.PLUS, Form.PERCENT}

  lemma Signs()
    ensures [Form.EQUALS] == Text("=") && [Form.AMPERSAND] == Text("&")
  {
  }

  lemma AsIs(s: string)
    requires forall i :: 0 <= i < |s| ==> 'a' <= s[i] <= 'z'
    ensures Form.Plain(Text(s), MARKS) && Form.Encoded(Text(s), MARKS) == Text(s)
  {
    assert SPACE !in Text(s);
    Form.EncodedAsIs(Text(s), MARKS);
  }

  lemma LoginRequestIsWellFormed()
    ensures LoginRequest().WellFormed()
  {
    var m := LoginRequest();
    TextFree("POST", ' ');
    TextFree("/login", ' ');
    TextFree("1.1", ' ');
    TextFree("POST", '\r');
    TextFree("/login", '\r');
    TextFree("HTTP/", '\r');
    TextFree("1.1", '\r');
    TextFree("Content-Type", ':');
    TextFree("Content-Type", '\r');
    TextFree("application/x-www-form-urlencoded", '\r');
    TextFree("application/x-www-form-urlencoded", '\n');
    assert 13 !in m.line.Printed();
    assert NoCrlf(m.line.Printed()) && NoCrlf(m.headers[0].name);
  }

  function LoginOctets(): bytes {
    Text("POST /login HTTP/1.1\r\n")
    + (Text("Content-Type: ") + Text("application/x-www-form-urlencoded") + Text("\r\n"))
    + Text("\r\n") + Text("username=bob&pwd=x")
  }

  lemma LoginRequestOctets()
    ensures LoginRequest().Printed() == LoginOctets()
  {
    hide Text;
    Marks();
    LoginLine();
    TextJoins("Content-Type", ": ");
    OneHeaderBlock(LoginRequest().headers[0]);
  }

  lemma LoginLine()
    ensures LoginRequest().line.Printed() + CRLF == Text("POST /login HTTP/1.1\r\n")
  {
    hide Text;
    Marks();
    TextJoins("POST", " ");
    TextJoins("POST ", "/login");
    TextJoins("POST /login", " ");
    TextJoins("POST /login ", "HTTP/");
    TextJoins("POST /login HTTP/", "1.1");
    TextJoins("POST /login HTTP/1.1", "\r\n");
  }

  /** Whatever headers are kept from before, if the form is empty, these octets make the login compare
      bob and x. */
  lemma BobIsCompared(q: Req, stat: Stat)
    requires q.form == map[]
    ensures var r := Parse(Started(q), LoginOctets());
            && r.Done?
            && var answered := Connector.Answered(r, stat);
               && answered.tasks && answered.form.Keys == {Text("username"), Text("pwd")}
               && Form.Field(answered.form, Text("username")) == Text("bob")
               && Form.Field(answered.form, Text("pwd")) == Text("x")
  {
    assert Text("x") != [] && LoginPairs()[1].value != [];
    hide Text, Parse, Connector.Answered, Form.Joined;
    LoginRequestOctets();
    LoginRequestIsWellFormed();
    LoginPairsArePlain();
    var m := LoginRequest();
    assert m.headers[1..] == [];
    assert FormPost(m.line.verb, Overlaid(q.headers, m.headers));
    LoginComparesWhatWasSent(q, m, LoginPairs(), MARKS, stat, 0, 1);
    TwoStored(LoginPairs());
  }

  lemma TwoStored(pairs: seq<Form.Pair>)
    requires |pairs| == 2
    ensures Form.Stored(map[], pairs).Keys == {pairs[0].key, pairs[1].key}
  {
    assert pairs[..1][..0] == [];
    assert Form.Stored(map[], pairs[..1]) == map[pairs[0].key := pairs[0].value];
  }
}
