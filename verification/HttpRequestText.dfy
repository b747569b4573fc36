/** Requests as text: printing, parsing, and exactly when parsing undoes
    printing (message format: RFC 9112, sections 2.1, 3, 5 and 6.2). */
module HttpRequestText {
  import opened Decimals
  import opened HttpMessage
  import opened Lex
  import opened Text
  import opened Trimming

  datatype Request = Request(verb: Method, path: string, fields: Fields)

  const CRLF: string := ['\r', '\n']
  const BLANK: string := ['\r', '\n', '\r', '\n']

  // ---------------------------------------------------------------- printing

  function FieldLine(k: string, h: map<string, string>): string
    requires k in h
  {
    k + [':', ' '] + h[k]
  }

  function PrintFields(keys: seq<string>, h: map<string, string>): string
    requires forall k <- keys :: k in h
  {
    if keys == [] then [] else FieldLine(keys[0], h) + CRLF + PrintFields(keys[1..], h)
  }

  function StartLine(r: Request): string {
    MethodName(r.verb) + [' '] + r.path + [' '] + VersionName(HTTP_1_1)
  }

  ghost function Print(r: Request): string {
    StartLine(r) + CRLF + PrintFields(OrderedKeys(r.fields.headers.Keys), r.fields.headers) + CRLF + r.fields.content
  }

  // ----------------------------------------------------------------- parsing

  function ParseStartLine(start: string): Result<(Method, string), HttpError> {
    var verb := GetWord(Open(start), []);
    var path := GetWord(verb.from, []);
    var version := GetWord(path.from, []);
    if !version.from.Good() && !version.from.eof then Failure(InvalidStartLine)
    else
      match StringToMethod(verb.text)
      case Failure(e) => Failure(e)
      case Success(m) =>
        match StringToVersion(version.text)
        case Failure(e) => Failure(e)
        case Success(v) => if v != HTTP_1_1 then Failure(VersionNotSupported) else Success((m, path.text))
  }

  /** The header lines and the body, given where the start line ended. */
  function HeaderAndBody(text: string, from: nat): (string, string)
    requires from <= |text|
  {
    match FindFrom(text, BLANK, from)
    case None => ([], [])
    case Some(q) => (text[from..q], text[q + 4..])
  }

  /** One header line. A line without ':' leaves the stream at its end, and the
      value is then the one of the line before. */
  function ParseLine(line: string, value: string): (string, string) {
    var key := GetLine(Open(line), ':', []);
    var val := GetLine(key.from, '\n', value);
    (Trim(key.text), Trim(val.text))
  }

  function ParseHeaders(lines: seq<string>, value: string, h: map<string, string>): map<string, string> {
    if lines == [] then h else
      var (k, v) := ParseLine(lines[0], value);
      ParseHeaders(lines[1..], v, h[k := v])
  }

  function Parse(text: string): Result<Request, HttpError> {
    match FindFrom(text, CRLF, 0)
    case None => Failure(NoStartLine)
    case Some(p) =>
      match ParseStartLine(text[..p])
      case Failure(e) => Failure(e)
      case Success((m, path)) =>
        var (header, body) := HeaderAndBody(text, p + 2);
        Success(Request(m, path, Fields(ParseHeaders(Lines(header), [], map[]), body).WithLength()))
  }

  // ------------------------------------------- what every parsed request is

  predicate NameHolds(k: string) {
    ':' !in k && '\n' !in k
  }

  predicate HeadersHold(h: map<string, string>) {
    forall k <- h :: NameHolds(k) && '\n' !in h[k]
  }

  predicate PathHolds(path: string) {
    path != [] && forall c <- path :: !IsSpace(c)
  }

  predicate Plain(r: Request) {
    PathHolds(r.path) && HeadersHold(r.fields.headers) && r.fields.LengthMatches()
  }

  lemma ParseLineHolds(line: string, value: string)
    requires '\n' !in line && '\n' !in value
    ensures var (k, v) := ParseLine(line, value); NameHolds(k) && '\n' !in v
  {
    hide GetLine, Trim;
    var key := GetLine(Open(line), ':', []);
    GetLineMembers(Open(line), ':', []);
    var val := GetLine(key.from, '\n', value);
    GetLineMembers(key.from, '\n', value);
    TrimShrinks(key.text);
    TrimShrinks(val.text);
  }

  lemma {:induction false} ParseHeadersHold(lines: seq<string>, value: string, h: map<string, string>)
    requires (forall l <- lines :: '\n' !in l) && '\n' !in value && HeadersHold(h)
    ensures HeadersHold(ParseHeaders(lines, value, h))
  {
    hide ParseLine, NameHolds;
    if lines != [] {
      assert lines[0] in lines;
      ParseLineHolds(lines[0], value);
      var (k, v) := ParseLine(lines[0], value);
      ParseHeadersHold(lines[1..], v, h[k := v]);
    }
  }

  lemma DecimalHolds(n: nat)
    ensures '\n' !in Decimal(n) && NameHolds(CONTENT_LENGTH)
  {
  }

  /** Whatever text a request was parsed from, and whatever Content-Length header
      the text carried, the request has the length of its content there. */
  lemma ParsedIsPlain(text: string)
    ensures Parse(text).Success? ==> Plain(Parse(text).value)
  {
    if Parse(text).Success? {
      var p := FindFrom(text, CRLF, 0).value;
      var (header, body) := HeaderAndBody(text, p + 2);
      LinesHoldNoNewline(header);
      ParseHeadersHold(Lines(header), [], map[]);
      DecimalHolds(|body|);
      ParsedPathHolds(text[..p]);
    }
  }

  lemma ParsedPathHolds(start: string)
    ensures ParseStartLine(start).Success? ==> PathHolds(ParseStartLine(start).value.1)
  {
    NoVersionAtAll();
    hide GetWord, StringToMethod, StringToVersion;
  }

  lemma NoVersionAtAll()
    ensures StringToVersion([]).Failure?
  {
    assert |Upper([])| == 0;
  }

  // ------------------------------------------ what any text is parsed into

  /** Word `i` of a start line; empty if there are not that many. */
  function Word(start: string, i: nat): string {
    if i < |Words(start)| then Words(start)[i] else []
  }

  lemma ThreeWords(start: string)
    ensures var verb := GetWord(Open(start), []);
            var path := GetWord(verb.from, []);
            var version := GetWord(path.from, []);
            && verb.text == Word(start, 0) && path.text == Word(start, 1) && version.text == Word(start, 2)
            && (version.from.Good() || version.from.eof)
  {
    hide GetWord, Words;
    var verb := GetWord(Open(start), []);
    var path := GetWord(verb.from, []);
    GetWordTakesOne(Open(start), []);
    GetWordTakesOne(verb.from, []);
    GetWordTakesOne(path.from, []);
  }

  /** Names a method, in either case. */
  predicate IsMethod(s: string) {
    || Spells(s, "GET") || Spells(s, "HEAD") || Spells(s, "POST") || Spells(s, "PUT") || Spells(s, "DELETE")
    || Spells(s, "CONNECT") || Spells(s, "OPTIONS") || Spells(s, "TRACE") || Spells(s, "PATCH")
  }

  predicate IsVersion(s: string) {
    || Spells(s, "HTTP/0.9") || Spells(s, "HTTP/1.0") || Spells(s, "HTTP/1.1")
    || Spells(s, "HTTP/2.0") || Spells(s, "HTTP/2")
  }

  lemma MethodOrNot(s: string)
    ensures StringToMethod(s).Success? <==> IsMethod(s)
    ensures StringToMethod(s).Failure? ==> StringToMethod(s).error == UnexpectedMethod
  {
    hide Spells, StringToMethod;
    MethodsAreNames(s, GET);
    MethodsAreNames(s, HEAD);
    MethodsAreNames(s, POST);
    MethodsAreNames(s, PUT);
    MethodsAreNames(s, DELETE);
    MethodsAreNames(s, CONNECT);
    MethodsAreNames(s, OPTIONS);
    MethodsAreNames(s, TRACE);
    MethodsAreNames(s, PATCH);
    OneError(s);
    if StringToMethod(s).Success? {
      MethodsAreNames(s, StringToMethod(s).value);
    }
  }

  lemma OneError(s: string)
    ensures StringToMethod(s).Failure? ==> StringToMethod(s).error == UnexpectedMethod
    ensures StringToVersion(s).Failure? ==> StringToVersion(s).error == UnexpectedVersion
  {
  }

  lemma VersionOrNot(s: string)
    ensures StringToVersion(s).Success? <==> IsVersion(s)
    ensures StringToVersion(s).Failure? ==> StringToVersion(s).error == UnexpectedVersion
  {
    hide Spells, StringToVersion;
    VersionsAreNames(s, HTTP_0_9);
    VersionsAreNames(s, HTTP_1_0);
    VersionsAreNames(s, HTTP_1_1);
    VersionsAreNames(s, HTTP_2_0);
    OneError(s);
    if StringToVersion(s).Success? {
      VersionsAreNames(s, StringToVersion(s).value);
    }
  }

  /** Exactly which start lines are taken, and why each other one is refused.
      Only the first three words count. A line that lacks some of them is refused
      for the method or the version: the error for an invalid format, which the
      code has, is the answer to no line. */
  lemma StartLineExactly(start: string, m: Method, path: string)
    ensures var r := ParseStartLine(start);
            var verb, version := Word(start, 0), Word(start, 2);
            && (r == Success((m, path)) <==>
                  Spells(verb, MethodName(m)) && path == Word(start, 1) && Spells(version, "HTTP/1.1"))
            && (r == Failure(UnexpectedMethod) <==> !IsMethod(verb))
            && (r == Failure(UnexpectedVersion) <==> IsMethod(verb) && !IsVersion(version))
            && (r == Failure(VersionNotSupported) <==>
                  IsMethod(verb) && IsVersion(version) && !Spells(version, "HTTP/1.1"))
            && r != Failure(InvalidStartLine)
  {
    hide GetWord, StringToMethod, StringToVersion, Spells, IsMethod, IsVersion, MethodName, Word;
    ThreeWords(start);
    MethodsAreNames(Word(start, 0), m);
    MethodOrNot(Word(start, 0));
    VersionsAreNames(Word(start, 2), HTTP_1_1);
    VersionOrNot(Word(start, 2));
  }

  /** A method, a path and a version, with any white space in front, between and
      behind, are taken exactly if the version is 1.1. */
  lemma OnlyVersion11(m: Method, path: string, v: Version, g: string, g': string, g'': string, rest: string)
    requires IsWord(path) && AllSpace(g) && Separates(g') && Separates(g'') && (rest != [] ==> IsSpace(rest[0]))
    ensures ParseStartLine(g + (MethodName(m) + (g' + (path + (g'' + (VersionName(v) + rest))))))
         == if v == HTTP_1_1 then Success((m, path)) else Failure(VersionNotSupported)
  {
    var line := g + (MethodName(m) + (g' + (path + (g'' + (VersionName(v) + rest)))));
    NamesAreWords(m, v);
    WordsOfThree(g, MethodName(m), g', path, g'', VersionName(v), rest);
    hide Words, IsSpace, MethodName, VersionName, ParseStartLine, Spells, GetWord;
    assert Word(line, 0) == MethodName(m) && Word(line, 1) == path && Word(line, 2) == VersionName(v);
    StartLineExactly(line, m, path);
    MethodsAreNames(MethodName(m), m);
    VersionsAreNames(VersionName(v), v);
    VersionsAreNames(VersionName(v), HTTP_1_1);
    VersionNamed();
    MethodOrNot(MethodName(m));
    VersionOrNot(VersionName(v));
  }

  lemma VersionNamed()
    ensures VersionName(HTTP_1_1) == "HTTP/1.1"
  {
  }

  lemma NamesAreWords(m: Method, v: Version)
    ensures IsWord(MethodName(m)) && IsWord(VersionName(v))
  {
    hide VersionName;
    VersionIsWord(v);
  }

  lemma VersionIsWord(v: Version)
    ensures IsWord(VersionName(v))
  {
  }

  /** `d` stands behind `a` for the first time. */
  predicate Cuts(text: string, d: string, a: string, b: string) {
    text == a + d + b && forall j: nat | j < |a| :: !OccursAt(text, d, j)
  }

  lemma CutsAt(text: string, d: string, a: string, b: string)
    requires Cuts(text, d, a, b)
    ensures FindFrom(text, d, 0) == Some(|a|)
    ensures text[..|a|] == a && text[|a| + |d|..] == b
  {
    assert text[|a|..|a| + |d|] == d;
    FindIs(text, d, 0, |a|);
  }

  /** A text without a line end has no start line, and no other text lacks one. */
  lemma NoStartLineExactly(text: string)
    ensures Parse(text) == Failure(NoStartLine) <==> forall j: nat :: !OccursAt(text, CRLF, j)
  {
    var at := FindFrom(text, CRLF, 0);
    assert at.Some? ==> at.value <= |text|;
    hide OccursAt, FindFrom, HeaderAndBody, Lines, ParseHeaders, ParseStartLine;
    if at.Some? {
      StartLineIsThere(text[..at.value]);
    }
  }

  lemma StartLineIsThere(start: string)
    ensures ParseStartLine(start) != Failure(NoStartLine)
  {
    hide GetWord, StringToMethod, StringToVersion, IsMethod, IsVersion, Word;
    ThreeWords(start);
    MethodOrNot(Word(start, 0));
    VersionOrNot(Word(start, 2));
  }

  lemma ParseAt(text: string, s: string, rest: string)
    requires Cuts(text, CRLF, s, rest)
    ensures Parse(text)
         == match ParseStartLine(s)
            case Failure(e) => Failure(e)
            case Success((m, path)) =>
              var (header, body) := HeaderAndBody(rest, 0);
              Success(Request(m, path, Fields(ParseHeaders(Lines(header), [], map[]), body).WithLength()))
  {
    CutsAt(text, CRLF, s, rest);
    hide Cuts, FindFrom, OccursAt, Lines, ParseHeaders, ParseStartLine;
    FindInSuffix(s + CRLF, rest, BLANK, 0);
    HeaderBehind(s + CRLF, rest);
  }

  lemma HeaderBehind(p: string, rest: string)
    requires FindFrom(p + rest, BLANK, |p|)
          == (match FindFrom(rest, BLANK, 0) case None => None case Some(k) => Some(|p| + k))
    ensures HeaderAndBody(p + rest, |p|) == HeaderAndBody(rest, 0)
  {
    hide *;
    var q := FindFrom(rest, BLANK, 0);
    FoundInside(rest, BLANK);
    if q.Some? {
      var k := q.value;
      BlankLength();
      SlicesBehind(p, rest, 0, k);
      SlicesBehind(p, rest, k + 4, |rest|);
      HeaderFound(p + rest, |p|, |p| + k, rest[..k], rest[k + 4..]);
      HeaderFound(rest, 0, k, rest[..k], rest[k + 4..]);
    } else {
      HeaderNone(p + rest, |p|);
      HeaderNone(rest, 0);
    }
  }

  lemma HeaderFound(text: string, from: nat, q: nat, header: string, body: string)
    requires from <= q && q + 4 <= |text| && FindFrom(text, BLANK, from) == Some(q)
    requires text[from..q] == header && text[q + 4..] == body
    ensures HeaderAndBody(text, from) == (header, body)
  {
  }

  lemma BlankLength()
    ensures |BLANK| == 4
  {
  }

  lemma HeaderNone(text: string, from: nat)
    requires from <= |text| && FindFrom(text, BLANK, from) == None
    ensures HeaderAndBody(text, from) == ([], [])
  {
  }

  lemma FoundInside(s: string, d: string)
    ensures var k := FindFrom(s, d, 0); k.Some? ==> k.value + |d| <= |s|
  {
  }

  lemma SlicesBehind(p: string, rest: string, i: nat, k: nat)
    requires i <= k <= |rest|
    ensures (p + rest)[|p| + i..|p| + k] == rest[i..k]
    ensures k == |rest| ==> (p + rest)[|p| + i..] == rest[i..]
    ensures i == 0 ==> rest[i..k] == rest[..k]
  {
  }

  /** Any text with a start line that is taken: everything up to the first blank
      line is headers and everything behind it is content; if no blank line is
      found, there are no headers and no content. */
  lemma TextExactly(text: string, s: string, rest: string, m: Method, path: string)
    requires Cuts(text, CRLF, s, rest) && ParseStartLine(s) == Success((m, path))
    ensures (forall j: nat :: !OccursAt(rest, BLANK, j)) ==>
              Parse(text) == Success(Request(m, path, Fields(map["Content-Length" := "0"], [])))
    ensures forall block, body | Cuts(rest, BLANK, block, body) ::
              Parse(text) == Success(Request(m, path, Fields(ParseHeaders(Lines(block), [], map[]), body).WithLength()))
  {
    ParseAt(text, s, rest);
    ZeroIs();
    assert ParseHeaders(Lines([]), [], map[]) == map[];
    hide Cuts, FindFrom, OccursAt, Lines, ParseHeaders, ParseStartLine, Parse;
    forall block, body | Cuts(rest, BLANK, block, body)
      ensures HeaderAndBody(rest, 0) == (block, body)
    {
      CutsAt(rest, BLANK, block, body);
    }
  }

  /** The blank line behind a start line does not count, because its first half
      ends the start line: content right behind it is lost. */
  lemma ContentWithoutHeadersIsLost(s: string, m: Method, path: string, body: string)
    requires ParseStartLine(s) == Success((m, path)) && '\n' !in s
    requires forall j: nat :: !OccursAt(CRLF + body, BLANK, j)
    ensures Parse(s + BLANK + body) == Success(Request(m, path, Fields(map[CONTENT_LENGTH := "0"], [])))
  {
    hide ParseStartLine, Parse;
    assert s + BLANK + body == s + CRLF + (CRLF + body);
    FindCrLf(s, CRLF + body);
    TextExactly(s + BLANK + body, s, CRLF + body, m, path);
  }

  /** The name on a header line: what stands before ':', or all of the line. */
  function NameOn(line: string): string {
    Trim(line[..IndexOf(line, ':')])
  }

  /** The value that line `i` gives. A line without ':' gives the one of the line
      before, trimmed once more, and a first line like that an empty one. */
  function ValueOn(lines: seq<string>, i: int): string
    requires -1 <= i < |lines|
    decreases i + 1
  {
    if i < 0 then []
    else if ':' in lines[i] then Trim(lines[i][IndexOf(lines[i], ':') + 1..])
    else Trim(ValueOn(lines, i - 1))
  }

  lemma ParseLineIs(line: string, value: string)
    requires '\n' !in line
    ensures ParseLine(line, value)
         == (NameOn(line), if ':' in line then Trim(line[IndexOf(line, ':') + 1..]) else Trim(value))
  {
    hide Trim, GetLine, IndexOf;
    var k := IndexOf(line, ':');
    if k < |line| {
      var name, rest := line[..k], line[k + 1..];
      assert line == name + [':'] + rest;
      GetLineIs(name, ':', rest, []);
      WholeLine(rest, value);
    } else {
      assert line[..k] == line;
      NoSecondLine(line, value);
    }
  }

  lemma WholeLine(rest: string, value: string)
    requires '\n' !in rest
    ensures GetLine(Open(rest), '\n', value).text == rest
  {
    IndexOfIs(rest, '\n', []);
  }

  lemma NoSecondLine(line: string, value: string)
    requires ':' !in line
    ensures var key := GetLine(Open(line), ':', []);
            key.text == line && GetLine(key.from, '\n', value).text == value
  {
    IndexOfIs(line, ':', []);
  }

  lemma {:induction false} ParseHeadersLast(lines: seq<string>, value: string, h: map<string, string>)
    requires lines != []
    ensures var n := |lines| - 1;
            var (k, v) := ParseLine(lines[n], Lingering(lines[..n], value));
            && (ParseHeaders(lines, value, h) == ParseHeaders(lines[..n], value, h)[k := v])
            && Lingering(lines, value) == v
  {
    hide ParseLine;
    var n := |lines| - 1;
    var (k, v) := ParseLine(lines[0], value);
    if n > 0 {
      ParseHeadersLast(lines[1..], v, h[k := v]);
      assert lines[1..][..n - 1] == lines[..n][1..];
    }
  }

  /** The value left over when all lines are read. */
  function Lingering(lines: seq<string>, value: string): string {
    if lines == [] then value else Lingering(lines[1..], ParseLine(lines[0], value).1)
  }

  lemma {:induction false} ValueOnFront(lines: seq<string>, n: nat, i: int)
    requires -1 <= i < n <= |lines|
    ensures ValueOn(lines[..n], i) == ValueOn(lines, i)
    decreases i + 1
  {
    hide Trim;
    if i >= 0 {
      ValueOnFront(lines, n, i - 1);
    }
  }

  lemma {:induction false} LingeringIs(lines: seq<string>)
    requires forall l <- lines :: '\n' !in l
    ensures Lingering(lines, []) == ValueOn(lines, |lines| - 1)
  {
    hide ParseLine, Trim;
    if lines != [] {
      var n := |lines| - 1;
      ParseHeadersLast(lines, [], map[]);
      LingeringIs(lines[..n]);
      assert lines[n] in lines;
      ParseLineIs(lines[n], ValueOn(lines[..n], n - 1));
      ValueOnFront(lines, n, n - 1);
    }
  }

  /** For any header lines and any name: the header is there exactly if some line
      names it, and the last line that does gives its value. */
  lemma {:induction false} LastLineDecides(lines: seq<string>, k: string, i: int)
    requires forall l <- lines :: '\n' !in l
    requires -1 <= i < |lines| && (i >= 0 ==> NameOn(lines[i]) == k)
    requires forall j | i < j < |lines| :: NameOn(lines[j]) != k
    ensures Lookup(ParseHeaders(lines, [], map[]), k) == if i < 0 then None else Some(ValueOn(lines, i))
    decreases |lines|
  {
    hide ParseLine, NameOn, ValueOn, Lingering, ParseHeaders;
    if lines == [] {
      NoHeaderLines();
    } else {
      var n := |lines| - 1;
      LastHeader(lines, n);
      assert lines[n] in lines && forall l <- lines[..n] :: l in lines;
      if i < n {
        LastLineDecides(lines[..n], k, i);
        ValueOnFront(lines, n, i);
      }
    }
  }

  lemma NoHeaderLines()
    ensures ParseHeaders([], [], map[]) == map[]
  {
  }

  lemma LastHeader(lines: seq<string>, n: nat)
    requires |lines| == n + 1 && forall l <- lines :: '\n' !in l
    ensures ParseHeaders(lines, [], map[])
         == ParseHeaders(lines[..n], [], map[])[NameOn(lines[n]) := ValueOn(lines, n)]
  {
    hide ParseLine, NameOn, ValueOn, Lingering, ParseHeaders;
    ParseHeadersLast(lines, [], map[]);
    LingeringIs(lines);
    assert lines[n] in lines;
    ParseLineIs(lines[n], Lingering(lines[..n], []));
  }

  // ------------------------------------------------ parsing what was printed

  /** No delimiter that has '\n' second occurs before the end of a line. */
  lemma NotInLine(f: string, rest: string, d: string, j: nat)
    requires '\n' !in f && |d| >= 2 && d[1] == '\n' && j < |f|
    ensures !OccursAt(f + ['\r'] + rest, d, j)
  {
    var s := f + ['\r'] + rest;
    assert j + 1 < |f| ==> s[j + 1] == f[j + 1] && f[j + 1] in f;
    if j + |d| <= |s| {
      assert s[j..j + |d|][1] == s[j + 1];
    }
  }

  lemma FindCrLf(f: string, rest: string)
    requires '\n' !in f
    ensures FindFrom(f + CRLF + rest, CRLF, 0) == Some(|f|)
  {
    var s := f + ['\r'] + (['\n'] + rest);
    assert s == f + CRLF + rest;
    assert OccursAt(s, CRLF, |f|);
    forall j: nat | j < |f|
      ensures !OccursAt(s, CRLF, j)
    {
      NotInLine(f, ['\n'] + rest, CRLF, j);
    }
    FindIs(s, CRLF, 0, |f|);
  }

  /** The header lines, without the line end of the last one. */
  function Block(keys: seq<string>, h: map<string, string>): string
    requires keys != [] && forall k <- keys :: k in h
  {
    if |keys| == 1 then FieldLine(keys[0], h)
    else FieldLine(keys[0], h) + CRLF + Block(keys[1..], h)
  }

  lemma {:induction false} PrintIsBlock(keys: seq<string>, h: map<string, string>)
    requires keys != [] && forall k <- keys :: k in h
    ensures PrintFields(keys, h) == Block(keys, h) + CRLF
  {
    var f := FieldLine(keys[0], h);
    if |keys| == 1 {
      assert keys[1..] == [];
      assert f + CRLF + [] == f + CRLF;
    } else {
      PrintIsBlock(keys[1..], h);
      Assoc(f + CRLF, Block(keys[1..], h), CRLF);
    }
  }

  lemma FieldLineHolds(k: string, h: map<string, string>)
    requires k in h && HeadersHold(h)
    ensures var f := FieldLine(k, h); '\n' !in f && |f| >= 2
  {
  }

  /** A blank line is found right after a last line, ... */
  lemma FindBlankAfter(f: string, rest: string)
    requires '\n' !in f
    ensures FindFrom(f + BLANK + rest, BLANK, 0) == Some(|f|)
  {
    var s := f + ['\r'] + (['\n', '\r', '\n'] + rest);
    assert s == f + BLANK + rest;
    assert OccursAt(s, BLANK, |f|);
    forall j: nat | j < |f|
      ensures !OccursAt(s, BLANK, j)
    {
      NotInLine(f, ['\n', '\r', '\n'] + rest, BLANK, j);
    }
    FindIs(s, BLANK, 0, |f|);
  }

  /** ... and not before a further line of two characters or more. */
  lemma NotBeforeLine(f: string, rest: string, j: nat)
    requires '\n' !in f && |rest| >= 2 && rest[1] != '\n' && j < |f| + 2
    ensures !OccursAt(f + CRLF + rest, BLANK, j)
  {
    var s, n := f + CRLF + rest, |f|;
    if j < n {
      NotInLine(f, ['\n'] + rest, BLANK, j);
      assert s == f + ['\r'] + (['\n'] + rest);
    } else if j + 4 <= |s| {
      var w := s[j..j + 4];
      assert w[0] == s[j] && w[3] == s[j + 3];
      assert s[n + 1] == '\n' && s[n + 3] == rest[1];
    }
  }

  lemma FindBlankLater(f: string, rest: string)
    requires '\n' !in f && |rest| >= 2 && rest[1] != '\n'
    ensures FindFrom(f + CRLF + rest, BLANK, 0)
         == (match FindFrom(rest, BLANK, 0) case None => None case Some(k) => Some(|f| + 2 + k))
  {
    hide FindFrom, OccursAt;
    forall j: nat | j < |f| + 2
      ensures !OccursAt(f + CRLF + rest, BLANK, j)
    {
      NotBeforeLine(f, rest, j);
    }
    SkipTo(f + CRLF + rest, BLANK, 0, |f| + 2);
    FindInSuffix(f + CRLF, rest, BLANK, 0);
  }

  lemma {:induction false} SkipTo(s: string, d: string, i: nat, k: nat)
    requires i <= k
    requires forall j: nat | i <= j < k :: !OccursAt(s, d, j)
    ensures FindFrom(s, d, i) == FindFrom(s, d, k)
    decreases k - i
  {
    if i < k {
      SkipTo(s, d, i + 1, k);
    }
  }

  /** The first blank line is the one after the headers, whatever the body. */
  lemma {:induction false} FindBlank(keys: seq<string>, h: map<string, string>, body: string)
    requires keys != [] && (forall k <- keys :: k in h) && HeadersHold(h)
    ensures FindFrom(Block(keys, h) + BLANK + body, BLANK, 0) == Some(|Block(keys, h)|)
  {
    hide FindFrom, FieldLine;
    var f := FieldLine(keys[0], h);
    FieldLineHolds(keys[0], h);
    if |keys| == 1 {
      FindBlankAfter(f, body);
    } else {
      var rest := Block(keys[1..], h) + BLANK + body;
      FindBlank(keys[1..], h, body);
      BlockStarts(keys[1..], h, BLANK + body);
      Assoc(Block(keys[1..], h), BLANK, body);
      FindBlankLater(f, rest);
      assert Block(keys, h) + BLANK + body == f + CRLF + rest by {
        Assoc(f + CRLF, Block(keys[1..], h), BLANK);
        Assoc(f + CRLF, Block(keys[1..], h) + BLANK, body);
      }
    }
  }

  lemma BlockStarts(keys: seq<string>, h: map<string, string>, more: string)
    requires keys != [] && (forall k <- keys :: k in h) && HeadersHold(h)
    ensures var s := Block(keys, h) + more; |s| >= 2 && s[1] != '\n'
  {
    var f := FieldLine(keys[0], h);
    FieldLineHolds(keys[0], h);
    assert (Block(keys, h) + more)[1] == f[1] && f[1] in f;
  }

  /** The header lines as `getline` gives them: all but the last still carry the
      carriage return. */
  function FieldLines(keys: seq<string>, h: map<string, string>): seq<string>
    requires keys != [] && forall k <- keys :: k in h
  {
    if |keys| == 1 then [FieldLine(keys[0], h)]
    else [FieldLine(keys[0], h) + ['\r']] + FieldLines(keys[1..], h)
  }

  lemma {:induction false} LinesOfBlock(keys: seq<string>, h: map<string, string>)
    requires keys != [] && (forall k <- keys :: k in h) && HeadersHold(h)
    ensures Lines(Block(keys, h)) == FieldLines(keys, h)
  {
    hide Lines, FieldLine;
    var f := FieldLine(keys[0], h);
    FieldLineHolds(keys[0], h);
    if |keys| == 1 {
      LinesLast(f);
    } else {
      LinesOfBlock(keys[1..], h);
      LinesCons(f + ['\r'], Block(keys[1..], h));
      assert f + ['\r'] + ['\n'] == f + CRLF;
    }
  }

  /** The value that comes back from a header line. */
  function FieldValue(v: string, last: bool): string {
    Trim(if last then [' '] + v else [' '] + v + ['\r'])
  }

  lemma ParseFieldLine(k: string, v: string, last: bool, before: string)
    requires NameHolds(k) && '\n' !in v
    ensures ParseLine(if last then k + [':', ' '] + v else k + [':', ' '] + v + ['\r'], before)
         == (Trim(k), FieldValue(v, last))
  {
    hide Trim, GetLine;
    var tail := if last then [' '] + v else [' '] + v + ['\r'];
    assert k + [':'] + tail == if last then k + [':', ' '] + v else k + [':', ' '] + v + ['\r'];
    GetLineIs(k, ':', tail, []);
    GetLineIs(tail, '\n', [], before);
  }

  /** The headers that parsing rebuilds. */
  function Rebuilt(keys: seq<string>, h: map<string, string>, m: map<string, string>): map<string, string>
    requires keys != [] && forall k <- keys :: k in h
  {
    var m' := m[Trim(keys[0]) := FieldValue(h[keys[0]], |keys| == 1)];
    if |keys| == 1 then m' else Rebuilt(keys[1..], h, m')
  }

  lemma {:induction false} ParseFieldLines(keys: seq<string>, h: map<string, string>, before: string,
                                           m: map<string, string>)
    requires keys != [] && (forall k <- keys :: k in h) && HeadersHold(h)
    ensures ParseHeaders(FieldLines(keys, h), before, m) == Rebuilt(keys, h, m)
  {
    hide ParseLine, FieldValue, Trim;
    var k := keys[0];
    var last := |keys| == 1;
    var v, m' := FieldValue(h[k], last), m[Trim(k) := FieldValue(h[k], last)];
    ParseFieldLine(k, h[k], last, before);
    if last {
      var lines := FieldLines(keys, h);
      assert lines[1..] == [];
      assert ParseHeaders([], v, m') == m';
    } else {
      Cons(FieldLine(k, h) + ['\r'], FieldLines(keys[1..], h));
      ParseFieldLines(keys[1..], h, v, m');
    }
  }

  /** A word that ends the stream or has white space behind it. */
  lemma WordIs(st: Stream, gap: string, w: string, rest: string)
    requires st.Good() && st.rest == gap + w + rest
    requires AllSpace(gap) && w != [] && forall c <- w :: !IsSpace(c)
    requires rest != [] ==> IsSpace(rest[0])
    ensures GetWord(st, []) == Read(w, Stream(rest, rest == [], false))
  {
    hide SpanSpace, IsSpace, AllSpace;
    var s := w + rest;
    assert w[0] in w;
    Assoc(gap, w, rest);
    SpanGap(gap, s);
    WordEnds(w, rest);
    assert s[..|w|] == w && s[|w|..] == rest;
  }

  lemma WordEnds(w: string, rest: string)
    requires (forall c <- w :: !IsSpace(c)) && (rest != [] ==> IsSpace(rest[0]))
    ensures SpanSpace(w + rest, false) == |w|
  {
    hide IsSpace;
    assert forall i | 0 <= i < |w| :: (w + rest)[i] == w[i] && w[i] in w;
    SpanSpaceIs(w + rest, false, |w|);
  }

  lemma ParsePrintedStart(r: Request)
    requires PathHolds(r.path)
    ensures ParseStartLine(StartLine(r)) == Success((r.verb, r.path))
    ensures '\n' !in StartLine(r)
  {
    NamesAreWords(r.verb, HTTP_1_1);
    MethodsAreNames([], r.verb);
    VersionsAreNames([], HTTP_1_1);
    BlankIsSpace();
    hide MethodName, VersionName, GetWord, StringToMethod, StringToVersion, AllSpace;
    var n, v := MethodName(r.verb), VersionName(HTTP_1_1);
    assert |v| == 8 && !IsSpace('a') && IsSpace('\n') by {
      VersionLength();
    }
    assert StartLine(r) == [] + n + ([' '] + r.path + ([' '] + v));
    WordIs(Open(StartLine(r)), [], n, [' '] + r.path + ([' '] + v));
    WordIs(Stream([' '] + r.path + ([' '] + v), false, false), [' '], r.path, [' '] + v);
    assert [' '] + v == [' '] + v + [];
    WordIs(Stream([' '] + v, false, false), [' '], v, []);
  }

  lemma VersionLength()
    ensures |VersionName(HTTP_1_1)| == 8
  {
  }

  /** The header names, in the order in which they are printed. */
  ghost function Keys(r: Request): (keys: seq<string>)
    requires r.fields.LengthMatches()
    ensures keys != [] && Ascending(keys) && forall k :: k in keys <==> k in r.fields.headers
  {
    assert CONTENT_LENGTH in OrderedKeys(r.fields.headers.Keys);
    OrderedKeys(r.fields.headers.Keys)
  }

  /** The request that parsing the text of `r` gives. */
  ghost function Reparsed(r: Request): Request
    requires r.fields.LengthMatches()
  {
    r.(fields := Fields(Rebuilt(Keys(r), r.fields.headers, map[]), r.fields.content).WithLength())
  }

  lemma PrintIs(r: Request)
    requires r.fields.LengthMatches()
    ensures Print(r) == StartLine(r) + CRLF + (Block(Keys(r), r.fields.headers) + BLANK + r.fields.content)
  {
    PrintIsBlock(Keys(r), r.fields.headers);
    hide Block, StartLine, PrintFields, OrderedKeys;
    PrintSplits(StartLine(r), Block(Keys(r), r.fields.headers), r.fields.content);
  }

  lemma PrintSplits(s: string, block: string, body: string)
    ensures s + CRLF + (block + CRLF) + CRLF + body == s + CRLF + (block + BLANK + body)
  {
  }

  lemma ParsePieces(s: string, block: string, body: string)
    requires ParseStartLine(s).Success? && '\n' !in s
    requires FindFrom(block + BLANK + body, BLANK, 0) == Some(|block|)
    ensures Parse(s + CRLF + (block + BLANK + body))
         == Success(Request(ParseStartLine(s).value.0, ParseStartLine(s).value.1,
                            Fields(ParseHeaders(Lines(block), [], map[]), body).WithLength()))
  {
    hide ParseStartLine, Lines, ParseHeaders, Parse;
    var rest := block + BLANK + body;
    FindCrLf(s, rest);
    TextExactly(s + CRLF + rest, s, rest, ParseStartLine(s).value.0, ParseStartLine(s).value.1);
    assert Cuts(rest, BLANK, block, body);
  }

  lemma ParseOfPrint(r: Request)
    requires Plain(r)
    ensures Parse(Print(r)) == Success(Reparsed(r))
  {
    hide Block, StartLine, ParseStartLine, FindFrom, Lines, ParseHeaders, Rebuilt, Print, Parse, PathHolds, HeadersHold;
    var keys, h, body := Keys(r), r.fields.headers, r.fields.content;
    ParsePrintedStart(r);
    PrintIs(r);
    FindBlank(keys, h, body);
    ParsePieces(StartLine(r), Block(keys, h), body);
    LinesOfBlock(keys, h);
    ParseFieldLines(keys, h, [], map[]);
  }

  // -------------------------------------------------------- the round trip

  predicate FieldsFit(keys: seq<string>, h: map<string, string>)
    requires forall k <- keys :: k in h
  {
    forall i | 0 <= i < |keys| :: NameFits(keys[i]) && ValueFits(h[keys[i]], i == |keys| - 1)
  }

  /** The requests that come through: a path without white space; header names
      without ':' and newlines, and not beginning with a blank or ending with a
      blank or carriage return; values without newlines, not beginning with a
      blank or ending with a carriage return, and, on the last header line, not
      ending with a blank; Content-Length as `SetContent` leaves it. */
  ghost predicate Printable(r: Request) {
    Plain(r) && FieldsFit(Keys(r), r.fields.headers)
  }

  function Restrict(keys: seq<string>, h: map<string, string>): map<string, string>
    requires forall k <- keys :: k in h
  {
    map k | k in keys :: h[k]
  }

  lemma RestrictStep(keys: seq<string>, h: map<string, string>, m: map<string, string>)
    requires keys != [] && forall k <- keys :: k in h
    ensures m[keys[0] := h[keys[0]]] + Restrict(keys[1..], h) == m + Restrict(keys, h)
  {
    assert forall j :: j in keys <==> j == keys[0] || j in keys[1..];
  }

  lemma FitHead(keys: seq<string>, h: map<string, string>)
    requires keys != [] && (forall k <- keys :: k in h) && HeadersHold(h) && FieldsFit(keys, h)
    ensures Trim(keys[0]) == keys[0] && FieldValue(h[keys[0]], |keys| == 1) == h[keys[0]]
    ensures FieldsFit(keys[1..], h)
  {
    hide Trim;
    assert keys[0] in keys && NameFits(keys[0]);
    TrimOfName(keys[0]);
    TrimOfInnerValue(h[keys[0]]);
    TrimOfLastValue(h[keys[0]]);
    assert forall i | 0 <= i < |keys| - 1 :: keys[1..][i] == keys[i + 1];
  }

  lemma {:induction false} RebuiltIfFit(keys: seq<string>, h: map<string, string>, m: map<string, string>)
    requires keys != [] && (forall k <- keys :: k in h) && HeadersHold(h) && FieldsFit(keys, h)
    ensures Rebuilt(keys, h, m) == m + Restrict(keys, h)
  {
    FitHead(keys, h);
    RestrictStep(keys, h, m);
    hide Trim, FieldsFit, HeadersHold, FieldValue, Restrict;
    if |keys| > 1 {
      RebuiltIfFit(keys[1..], h, m[keys[0] := h[keys[0]]]);
    } else {
      assert keys[1..] == [];
      NothingLeft(h, m[keys[0] := h[keys[0]]]);
    }
  }

  lemma NothingLeft(h: map<string, string>, m: map<string, string>)
    ensures m + Restrict([], h) == m
  {
  }

  lemma {:induction false} RebuiltNames(keys: seq<string>, h: map<string, string>, m: map<string, string>)
    requires keys != [] && forall k <- keys :: k in h
    ensures forall n <- Rebuilt(keys, h, m) :: n in m || exists k :: k in keys && Trim(k) == n
  {
    hide Trim, FieldValue;
    if |keys| > 1 {
      var m' := m[Trim(keys[0]) := FieldValue(h[keys[0]], false)];
      RebuiltNames(keys[1..], h, m');
      assert keys[0] in keys && forall k <- keys[1..] :: k in keys;
    } else {
      assert keys[0] in keys;
    }
  }

  lemma {:induction false} RebuiltKeeps(keys: seq<string>, h: map<string, string>, m: map<string, string>, n: string)
    requires keys != [] && (forall k <- keys :: k in h) && n in m
    requires forall k <- keys :: Trim(k) != n
    ensures var r := Rebuilt(keys, h, m); n in r && r[n] == m[n]
  {
    hide Trim, FieldValue;
    assert keys[0] in keys;
    if |keys| > 1 {
      var m' := m[Trim(keys[0]) := FieldValue(h[keys[0]], false)];
      RebuiltKeeps(keys[1..], h, m', n);
    }
  }

  lemma {:induction false} RebuiltValues(keys: seq<string>, h: map<string, string>, m: map<string, string>, i: nat)
    requires i < |keys| && (forall k <- keys :: k in h && Trim(k) == k)
    requires forall a, b | 0 <= a < b < |keys| :: keys[a] != keys[b]
    ensures var r := Rebuilt(keys, h, m);
            keys[i] in r && r[keys[i]] == FieldValue(h[keys[i]], i == |keys| - 1)
  {
    hide Trim, FieldValue;
    assert keys[0] in keys;
    if |keys| > 1 {
      var m' := m[keys[0] := FieldValue(h[keys[0]], false)];
      if i == 0 {
        RebuiltKeeps(keys[1..], h, m', keys[0]);
      } else {
        RebuiltValues(keys[1..], h, m', i - 1);
      }
    }
  }

  lemma LengthFits(n: nat, last: bool)
    ensures NameFits(CONTENT_LENGTH) && ValueFits(Decimal(n), last)
  {
    var s := Decimal(n);
    assert IsDigit(s[0]) && IsDigit(s[|s| - 1]);
  }

  lemma ReparsedIs(r: Request)
    requires r.fields.LengthMatches()
    ensures Reparsed(r) == r
       <==> Rebuilt(Keys(r), r.fields.headers, map[])[CONTENT_LENGTH := Decimal(|r.fields.content|)] == r.fields.headers
  {
    hide Rebuilt, Keys;
  }

  lemma FitIfSame(r: Request)
    requires Plain(r) && Reparsed(r) == r
    ensures Printable(r)
  {
    hide Reparsed, Keys, Rebuilt, Trim, HeadersHold, PathHolds, NameFits, ValueFits, Decimal, Ascending;
    var h, n := r.fields.headers, |r.fields.content|;
    var keys := Keys(r);
    var built := Rebuilt(keys, h, map[]);
    ReparsedIs(r);
    LengthFits(n, true);
    TrimOfName(CONTENT_LENGTH);
    RebuiltNames(keys, h, map[]);
    NamesAreFixed(keys, h, built, n);
    forall i | 0 <= i < |keys|
      ensures NameFits(keys[i]) && ValueFits(h[keys[i]], i == |keys| - 1)
    {
      FieldFits(keys, h, built, i, n);
    }
  }

  lemma NamesAreFixed(keys: seq<string>, h: map<string, string>, built: map<string, string>, n: nat)
    requires (forall k :: k in keys <==> k in h) && Trim(CONTENT_LENGTH) == CONTENT_LENGTH && CONTENT_LENGTH in h
    requires forall j <- built :: exists k :: k in keys && Trim(k) == j
    requires built[CONTENT_LENGTH := Decimal(n)] == h
    ensures forall k <- keys :: Trim(k) == k
  {
    hide Trim;
    forall j <- h.Keys
      ensures exists k :: k in h.Keys && Trim(k) == j
    {
      if j != CONTENT_LENGTH {
        assert j in built;
      }
    }
    TrimOnto(h.Keys);
  }

  lemma FieldFits(keys: seq<string>, h: map<string, string>, built: map<string, string>, i: nat, n: nat)
    requires i < |keys| && (forall k <- keys :: k in h && Trim(k) == k) && HeadersHold(h)
    requires Ascending(keys) && built == Rebuilt(keys, h, map[])
    requires CONTENT_LENGTH in h && h == built[CONTENT_LENGTH := Decimal(n)]
    ensures NameFits(keys[i]) && ValueFits(h[keys[i]], i == |keys| - 1)
  {
    var k, last := keys[i], i == |keys| - 1;
    forall a, b | 0 <= a < b < |keys|
      ensures keys[a] != keys[b]
    {
      Total(keys[a], keys[a]);
    }
    assert k in keys;
    TrimOfName(k);
    if k == CONTENT_LENGTH {
      LengthFits(n, last);
    } else {
      RebuiltValues(keys, h, map[], i);
      TrimOfInnerValue(h[k]);
      TrimOfLastValue(h[k]);
    }
  }

  lemma SameIfFit(r: Request)
    requires Printable(r)
    ensures Reparsed(r) == r
  {
    hide Reparsed, Keys, Rebuilt, HeadersHold, FieldsFit, PathHolds, Restrict, Decimal, Ascending;
    ReparsedIs(r);
    RebuiltIfFit(Keys(r), r.fields.headers, map[]);
    RestrictToAll(Keys(r), r.fields.headers);
    SetToSame(r.fields.headers, CONTENT_LENGTH);
  }

  lemma RestrictToAll(keys: seq<string>, h: map<string, string>)
    requires forall k :: k in keys <==> k in h
    ensures map[] + Restrict(keys, h) == h
  {
  }

  lemma SetToSame(h: map<string, string>, k: string)
    requires k in h
    ensures h[k := h[k]] == h
  {
  }

  /** Parsing the text of a request gives the request back exactly when it is
      printable, whatever its body, a body with blank lines in it included. */
  lemma RoundTripExactly(r: Request)
    ensures Parse(Print(r)) == Success(r) <==> Printable(r)
  {
    if Parse(Print(r)) == Success(r) {
      ParsedIsPlain(Print(r));
    }
    if Plain(r) {
      ParseOfPrint(r);
      if Reparsed(r) == r {
        FitIfSame(r);
      }
      if Printable(r) {
        SameIfFit(r);
      }
    }
  }

  // ----------------------------------------------------------- the operations

  class HttpRequest {
    const message: HttpMessage
    var verb: Method
    var path: string

    constructor ()
      ensures fresh(message) && Value() == Request(GET, [], Fields(map[], []))
    {
      verb, path := GET, [];
      message := new HttpMessage();
    }

    function Value(): Request
      reads this, message
    {
      Request(verb, path, message.Value())
    }
  }

  method ToString(request: HttpRequest) returns (oss: string)
    ensures oss == Print(request.Value())
  {
    oss := MethodName(request.verb) + [' '];
    oss := oss + request.path + [' '];
    oss := oss + VersionName(request.message.version) + CRLF;
    var h := request.message.headers;
    oss := PrintHeaders(oss, h);
    oss := oss + CRLF;
    oss := oss + request.message.content;
  }

  /** The loop over the header map, in the order of its keys. */
  method PrintHeaders(start: string, h: map<string, string>) returns (oss: string)
    ensures oss == start + PrintFields(OrderedKeys(h.Keys), h)
  {
    oss := start;
    var left := h.Keys;
    while left != {}
      invariant left <= h.Keys
      invariant oss + PrintFields(OrderedKeys(left), h) == start + PrintFields(OrderedKeys(h.Keys), h)
      decreases left
    {
      LeastExists(left);
      assert exists k :: IsLeast(k, left);
      var first :| first in left && forall j <- left :: !Less(j, first);
      PrintNext(oss, left, first, h);
      oss := oss + (first + [':', ' '] + h[first] + CRLF);
      left := left - {first};
    }
    assert PrintFields([], h) == [] && OrderedKeys({}) == [];
  }

  lemma PrintNext(oss: string, left: set<string>, k: string, h: map<string, string>)
    requires IsLeast(k, left) && left <= h.Keys
    ensures oss + PrintFields(OrderedKeys(left), h)
         == oss + (k + [':', ' '] + h[k] + CRLF) + PrintFields(OrderedKeys(left - {k}), h)
  {
    OrderedKeysStep(left, k);
    Cons(k, OrderedKeys(left - {k}));
    Assoc(oss, k + [':', ' '] + h[k] + CRLF, PrintFields(OrderedKeys(left - {k}), h));
  }

  method StringToRequest(text: string) returns (r: Result<HttpRequest, HttpError>)
    ensures match Parse(text)
            case Failure(e) => r == Failure(e)
            case Success(request) =>
              r.Success? && fresh(r.value) && fresh(r.value.message) && r.value.Value() == request
  {
    hide FindFrom, ParseStartLine, ParseHeaders, Lines;
    var headerLines, messageBody := [], [];
    var lpos := 0;
    var rpos := FindFrom(text, CRLF, lpos);
    if rpos.None? {
      return Failure(NoStartLine);
    }
    var startLine := text[lpos..rpos.value];
    lpos := rpos.value + 2;
    rpos := FindFrom(text, BLANK, lpos);
    if rpos.Some? {
      headerLines := text[lpos..rpos.value];
      lpos := rpos.value + 4;
      if lpos < |text| {
        messageBody := text[lpos..];
      }
    }
    var start := ParseStartLine(startLine);
    if start.Failure? {
      return Failure(start.error);
    }
    var request := new HttpRequest();
    request.verb, request.path := start.value.0, start.value.1;
    ReadHeaders(request.message, headerLines);
    request.message.SetContent(messageBody);
    r := Success(request);
  }

  /** The loop over the header lines. `value` outlives each turn. */
  method ReadHeaders(message: HttpMessage, headerLines: string)
    modifies message
    ensures message.headers == ParseHeaders(Lines(headerLines), [], old(message.headers))
    ensures message.content == old(message.content)
  {
    var value := [];
    var got := GetLine(Open(headerLines), '\n', []);
    PendingAtOpen(headerLines, []);
    hide Lines, ParseLine, GetLine;
    while !got.from.fail
      invariant !got.from.fail && got.from.eof ==> got.from.rest == []
      invariant message.content == old(message.content)
      invariant ParseHeaders(Pending(got), value, message.headers)
             == ParseHeaders(Lines(headerLines), [], old(message.headers))
      decreases if got.from.fail then 0 else 1 + |got.from.rest|
    {
      var line := got.text;
      PendingStep(got);
      Cons(line, Pending(GetLine(got.from, '\n', line)));
      var (k, v) := ParseLine(line, value);
      value := v;
      message.SetHeader(k, v);
      got := GetLine(got.from, '\n', line);
    }
  }
}
