/** HTTP messages: methods and versions, the header map, the content and the
    Content-Length header that follows it. */
module HttpMessage {
  import opened Decimals
  import opened Lex
  import opened Text

  // ------------------------------------------------------ methods, versions

  datatype Method = GET | HEAD | POST | PUT | DELETE | CONNECT | OPTIONS | TRACE | PATCH

  datatype Version = HTTP_0_9 | HTTP_1_0 | HTTP_1_1 | HTTP_2_0

  datatype HttpError =
    | NoStartLine
    | InvalidStartLine
    | UnexpectedMethod
    | UnexpectedVersion
    | VersionNotSupported
    | OutOfRange  // std::out_of_range from substr

  function MethodName(m: Method): string {
    match m
    case GET => "GET"
    case HEAD => "HEAD"
    case POST => "POST"
    case PUT => "PUT"
    case DELETE => "DELETE"
    case CONNECT => "CONNECT"
    case OPTIONS => "OPTIONS"
    case TRACE => "TRACE"
    case PATCH => "PATCH"
  }

  function ToUpper(c: char): char {
    if 'a' <= c <= 'z' then c - 'a' + 'A' else c
  }

  function Upper(s: string): (r: string)
    ensures |r| == |s| && forall i | 0 <= i < |s| :: r[i] == ToUpper(s[i])
  {
    seq(|s|, i requires 0 <= i < |s| => ToUpper(s[i]))
  }

  function StringToMethod(s: string): Result<Method, HttpError> {
    var u := Upper(s);
    if u == "GET" then Success(GET)
    else if u == "HEAD" then Success(HEAD)
    else if u == "POST" then Success(POST)
    else if u == "PUT" then Success(PUT)
    else if u == "DELETE" then Success(DELETE)
    else if u == "CONNECT" then Success(CONNECT)
    else if u == "OPTIONS" then Success(OPTIONS)
    else if u == "TRACE" then Success(TRACE)
    else if u == "PATCH" then Success(PATCH)
    else Failure(UnexpectedMethod)
  }

  function VersionName(v: Version): string {
    match v
    case HTTP_0_9 => "HTTP/0.9"
    case HTTP_1_0 => "HTTP/1.0"
    case HTTP_1_1 => "HTTP/1.1"
    case HTTP_2_0 => "HTTP/2.0"
  }

  function StringToVersion(s: string): Result<Version, HttpError> {
    var u := Upper(s);
    if u == "HTTP/0.9" then Success(HTTP_0_9)
    else if u == "HTTP/1.0" then Success(HTTP_1_0)
    else if u == "HTTP/1.1" then Success(HTTP_1_1)
    else if u == "HTTP/2" || u == "HTTP/2.0" then Success(HTTP_2_0)
    else Failure(UnexpectedVersion)
  }

  /** Letter by letter the same, where `s` may have a small letter for a capital. */
  predicate Spells(s: string, name: string) {
    && |s| == |name|
    && forall i | 0 <= i < |s| ::
         s[i] == name[i] || ('A' <= name[i] <= 'Z' && s[i] as int == name[i] as int - 'A' as int + 'a' as int)
  }

  lemma UpperSpells(s: string, name: string)
    requires forall c <- name :: !('a' <= c <= 'z')
    ensures Upper(s) == name <==> Spells(s, name)
  {
    if Spells(s, name) {
      forall i | 0 <= i < |s|
        ensures Upper(s)[i] == name[i]
      {
        assert name[i] in name;
      }
    }
    if Upper(s) == name {
      forall i | 0 <= i < |s|
        ensures s[i] == name[i] || ('A' <= name[i] <= 'Z' && s[i] as int == name[i] as int - 'A' as int + 'a' as int)
      {
        assert Upper(s)[i] == name[i];
      }
    }
  }

  /** A string is read as a method exactly when it spells it, in either case. */
  lemma MethodsAreNames(s: string, m: Method)
    ensures StringToMethod(s) == Success(m) <==> Spells(s, MethodName(m))
    ensures StringToMethod(MethodName(m)) == Success(m)
  {
    var n := MethodName(m);
    UpperSpells(s, n);
    assert Upper(n) == n;
    hide Spells;
  }

  lemma VersionsAreNames(s: string, v: Version)
    ensures StringToVersion(s) == Success(v)
       <==> Spells(s, VersionName(v)) || (v == HTTP_2_0 && Spells(s, "HTTP/2"))
    ensures StringToVersion(VersionName(v)) == Success(v)
  {
    var n := VersionName(v);
    UpperSpells(s, n);
    UpperSpells(s, "HTTP/2");
    assert Upper(n) == n;
    hide Spells;
  }

  // ------------------------------------------------------- header and content

  const CONTENT_LENGTH: string := "Content-Length"

  datatype Fields = Fields(headers: map<string, string>, content: string) {

    function WithLength(): Fields {
      this.(headers := headers[CONTENT_LENGTH := Decimal(|content|)])
    }

    /** Content-Length is the decimal form of the length of the content. */
    predicate LengthMatches() {
      CONTENT_LENGTH in headers && headers[CONTENT_LENGTH] == Decimal(|content|)
    }
  }

  /** The calls that change a message. */
  datatype Edit =
    | SetHeader(key: string, value: string)
    | RemoveHeader(key: string)
    | ClearHeader
    | SetContent(content: string)
    | ClearContent

  function Apply(f: Fields, e: Edit): Fields {
    match e
    case SetHeader(k, v) => f.(headers := f.headers[k := v])
    case RemoveHeader(k) => f.(headers := f.headers - {k})
    case ClearHeader => f.(headers := map[])
    case SetContent(c) => f.(content := c).WithLength()
    case ClearContent => f.(content := []).WithLength()
  }

  function After(f: Fields, edits: seq<Edit>): Fields
    decreases |edits|
  {
    if edits == [] then f else After(Apply(f, edits[0]), edits[1..])
  }

  lemma {:induction false} AfterLast(f: Fields, edits: seq<Edit>)
    requires edits != []
    ensures After(f, edits) == Apply(After(f, edits[..|edits| - 1]), edits[|edits| - 1])
    decreases |edits|
  {
    var n := |edits| - 1;
    if n > 0 {
      AfterLast(Apply(f, edits[0]), edits[1..]);
      assert edits[1..][..n - 1] == edits[..n][1..];
    }
  }

  /** The edits that say what header `k` is. */
  predicate Touches(e: Edit, k: string) {
    match e
    case SetHeader(key, _) => key == k
    case RemoveHeader(key) => key == k
    case ClearHeader => true
    case SetContent(_) => k == CONTENT_LENGTH
    case ClearContent => k == CONTENT_LENGTH
  }

  function Lookup(h: map<string, string>, k: string): Option<string> {
    if k in h then Some(h[k]) else None
  }

  /** Whatever came before, a header is what the last edit that touches it says,
      and every edit leaves alone what it does not touch. */
  lemma {:induction false} LastEditDecides(f: Fields, edits: seq<Edit>, k: string, i: int)
    requires -1 <= i < |edits| && (i >= 0 ==> Touches(edits[i], k))
    requires forall j | i < j < |edits| :: !Touches(edits[j], k)
    ensures Lookup(After(f, edits).headers, k)
         == if i < 0 then Lookup(f.headers, k)
            else match edits[i]
                 case SetHeader(_, v) => Some(v)
                 case SetContent(c) => Some(Decimal(|c|))
                 case ClearContent => Some("0")
                 case _ => None
    decreases |edits|
  {
    ZeroIs();
    if edits != [] {
      var n := |edits| - 1;
      AfterLast(f, edits);
      if i < n {
        LastEditDecides(f, edits[..n], k, i);
      }
    }
  }

  /** The content is what the last edit of the content says. */
  lemma {:induction false} LastContentDecides(f: Fields, edits: seq<Edit>, i: int)
    requires -1 <= i < |edits| && (i >= 0 ==> edits[i].SetContent? || edits[i].ClearContent?)
    requires forall j | i < j < |edits| :: !edits[j].SetContent? && !edits[j].ClearContent?
    ensures After(f, edits).content
         == if i < 0 then f.content else if edits[i].SetContent? then edits[i].content else []
    decreases |edits|
  {
    if edits != [] {
      var n := |edits| - 1;
      AfterLast(f, edits);
      if i < n {
        LastContentDecides(f, edits[..n], i);
      }
    }
  }

  /** Whether an edit can come between content and Content-Length. */
  predicate Disturbs(f: Fields, e: Edit) {
    match e
    case SetHeader(k, v) => k == CONTENT_LENGTH && v != Decimal(|f.content|)
    case RemoveHeader(k) => k == CONTENT_LENGTH
    case ClearHeader => true
    case _ => false
  }

  /** One edit of a matching message leaves it matching exactly when it does not
      disturb; setting or clearing the content repairs any message. */
  lemma EditMatchesExactly(f: Fields, e: Edit)
    ensures f.LengthMatches() ==> (Apply(f, e).LengthMatches() <==> !Disturbs(f, e))
    ensures e.SetContent? || e.ClearContent? ==> Apply(f, e).LengthMatches()
  {
  }

  predicate TouchesLength(e: Edit) {
    e.ClearHeader? || ((e.SetHeader? || e.RemoveHeader?) && e.key == CONTENT_LENGTH)
  }

  /** Content-Length follows the content through every sequence of edits to the
      content and to other headers, and a decimal decoder gives the length back. */
  lemma {:induction false} EditsMatch(f: Fields, edits: seq<Edit>)
    requires f.LengthMatches()
    requires forall e <- edits :: !TouchesLength(e)
    ensures var f' := After(f, edits);
            && f'.LengthMatches()
            && (forall c <- f'.headers[CONTENT_LENGTH] :: IsDigit(c))
            && Value(f'.headers[CONTENT_LENGTH]) == |f'.content|
    decreases |edits|
  {
    ValueOfDecimal(|f.content|);
    if edits != [] {
      assert edits[0] in edits;
      EditMatchesExactly(f, edits[0]);
      EditsMatch(Apply(f, edits[0]), edits[1..]);
    }
  }

  class HttpMessage {
    const version: Version := HTTP_1_1
    var headers: map<string, string>
    var content: string

    constructor ()
      ensures Value() == Fields(map[], [])
    {
      headers, content := map[], [];
    }

    function Value(): Fields
      reads this
    {
      Fields(headers, content)
    }

    method SetHeader(key: string, value: string)
      modifies this
      ensures Value() == Apply(old(Value()), Edit.SetHeader(key, value))
    {
      headers := headers[key := value];
    }

    /** Reading a header that is absent inserts it, empty. */
    method GetHeader(key: string) returns (value: string)
      modifies this
      ensures value == if key in old(headers) then old(headers)[key] else []
      ensures Value() == if key in old(headers) then old(Value()) else Apply(old(Value()), Edit.SetHeader(key, []))
    {
      if key !in headers {
        headers := headers[key := []];
      }
      value := headers[key];
    }

    method RemoveHeader(key: string)
      modifies this
      ensures Value() == Apply(old(Value()), Edit.RemoveHeader(key))
    {
      headers := headers - {key};
    }

    method ClearHeader()
      modifies this
      ensures Value() == Apply(old(Value()), Edit.ClearHeader)
    {
      headers := map[];
    }

    method SetContent(newContent: string)
      modifies this
      ensures Value() == Apply(old(Value()), Edit.SetContent(newContent))
    {
      content := newContent;
      SetContentLength();
    }

    /** The argument is ignored. */
    method ClearContent(ignored: string)
      modifies this
      ensures Value() == Apply(old(Value()), Edit.ClearContent)
    {
      content := [];
      SetContentLength();
    }

    method SetContentLength()
      modifies this
      ensures Value() == old(Value()).WithLength()
    {
      SetHeader(CONTENT_LENGTH, Decimal(|content|));
    }
  }

  // ------------------------------------------------------ the order of a map

  ghost predicate IsLeast(k: string, keys: set<string>) {
    k in keys && forall j <- keys :: !Less(j, k)
  }

  lemma {:induction false} LeastExists(keys: set<string>)
    requires keys != {}
    ensures exists k :: IsLeast(k, keys)
    decreases |keys|
  {
    var x :| x in keys;
    var rest := keys - {x};
    Total(x, x);
    if rest == {} {
      assert keys == {x};
      assert IsLeast(x, keys);
    } else {
      LeastExists(rest);
      var k :| IsLeast(k, rest);
      Total(x, k);
      if Less(x, k) {
        forall j <- keys
          ensures !Less(j, x)
        {
          if j != x {
            NotLessThrough(k, j, x);
            Total(j, x);
            if Less(j, x) {
              Transitive(j, x, k);
            }
          }
        }
        assert IsLeast(x, keys);
      } else {
        assert IsLeast(k, keys);
      }
    }
  }

  /** The keys in the order in which `std::map` goes through them. */
  ghost function OrderedKeys(keys: set<string>): (r: seq<string>)
    ensures forall k :: k in r <==> k in keys
    ensures Ascending(r)
    decreases |keys|
  {
    if keys == {} then [] else
      LeastExists(keys);
      var k :| IsLeast(k, keys);
      var rest := OrderedKeys(keys - {k});
      assert forall j <- rest :: Less(k, j) by {
        forall j <- rest
          ensures Less(k, j)
        {
          Total(j, k);
        }
      }
      [k] + rest
  }

  lemma OrderedKeysStep(keys: set<string>, k: string)
    requires IsLeast(k, keys)
    ensures OrderedKeys(keys) == [k] + OrderedKeys(keys - {k})
  {
    var r := OrderedKeys(keys);
    assert r != [] && r == [r[0]] + OrderedKeys(keys - {r[0]}) && IsLeast(r[0], keys);
    Total(k, r[0]);
  }
}
