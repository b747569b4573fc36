/** Responses as text: printing, parsing, and exactly what parsing makes of what
    was printed. */
module HttpResponseText {
  import opened Decimals
  import opened HttpMessage
  import opened HttpRequestText
  import opened Text

  const INT_MAX: int := 0x7fff_ffff
  const INT_MIN: int := -0x8000_0000

  datatype Response = Response(status: int, fields: Fields)

  // ---------------------------------------------------------------- printing

  function ReasonPhrase(status: int): string {
    if status < 400 then ReasonBelow400(status) else ReasonFrom400(status)
  }

  function ReasonBelow400(status: int): string {
    if status == 100 then "Continue"
    else if status == 200 then "OK"
    else if status == 202 then "Accepted"
    else if status == 301 then "Moved Permanently"
    else if status == 302 then "Found"
    else []
  }

  function ReasonFrom400(status: int): string {
    if status == 400 then "Bad Request"
    else if status == 403 then "Forbidden"
    else if status == 404 then "Not Found"
    else if status == 405 then "Method Not Allowed"
    else if status == 418 then "I'm a Teapot"
    else if status == 500 then "Internal Server Error"
    else if status == 501 then "Not Implemented"
    else if status == 502 then "Bad Gateway"
    else []
  }

  /** The status a phrase belongs to. */
  function StatusOf(phrase: string): int {
    if phrase == "OK" then 200
    else if phrase == "Found" then 302
    else if phrase == "Continue" then 100
    else if phrase == "Accepted" then 202
    else if phrase == "Forbidden" then 403
    else if phrase == "Not Found" then 404
    else if phrase == "Bad Request" then 400
    else if phrase == "Bad Gateway" then 502
    else if phrase == "I'm a Teapot" then 418
    else if phrase == "Not Implemented" then 501
    else if phrase == "Moved Permanently" then 301
    else if phrase == "Method Not Allowed" then 405
    else if phrase == "Internal Server Error" then 500
    else 0
  }

  lemma StatusBelow400(status: int)
    ensures var p := ReasonBelow400(status);
            (p != [] <==> status in {100, 200, 202, 301, 302}) && (p != [] ==> StatusOf(p) == status)
  {
  }

  lemma StatusFrom400(status: int)
    ensures var p := ReasonFrom400(status);
            (p != [] <==> status in {400, 403, 404, 405, 418, 500, 501, 502}) && (p != [] ==> StatusOf(p) == status)
  {
  }

  /** A reason phrase belongs to one status only. Of the statuses the code names,
      these have one; the others, 408, 503, 504 and 505 among them, have none. */
  lemma ReasonsTellStatus(a: int, b: int)
    ensures ReasonPhrase(a) != [] && ReasonPhrase(a) == ReasonPhrase(b) ==> a == b
    ensures ReasonPhrase(a) != []
       <==> a in {100, 200, 202, 301, 302, 400, 403, 404, 405, 418, 500, 501, 502}
  {
    StatusBelow400(a);
    StatusBelow400(b);
    StatusFrom400(a);
    StatusFrom400(b);
    hide ReasonBelow400, ReasonFrom400, StatusOf;
  }

  function StatusLine(status: int): string {
    VersionName(HTTP_1_1) + [' '] + Signed(status) + [' '] + ReasonPhrase(status)
  }

  ghost function PrintResponse(r: Response, sendContent: bool): string {
    StatusLine(r.status) + CRLF
    + PrintFields(OrderedKeys(r.fields.headers.Keys), r.fields.headers) + CRLF
    + (if sendContent then r.fields.content else [])
  }

  // ----------------------------------------------------------------- parsing

  datatype IntRead = IntRead(value: int, from: Stream)

  function SpanDigits(s: string): (k: nat)
    ensures k <= |s| && (forall c <- s[..k] :: IsDigit(c)) && (k < |s| ==> !IsDigit(s[k]))
  {
    if s == [] || !IsDigit(s[0]) then 0 else
      assert forall i | 0 <= i < SpanDigits(s[1..]) :: s[1..][..SpanDigits(s[1..])][i] == s[i + 1];
      1 + SpanDigits(s[1..])
  }

  /** A sign and digits, at the front of `s`. No digits make the number zero,
      and a number that does not fit is clamped; both set the fail bit. */
  function TakeNumber(s: string): IntRead
    requires s != []
  {
    TakeDigits(s[0] == '-', if s[0] == '-' || s[0] == '+' then s[1..] else s)
  }

  function TakeDigits(negative: bool, t: string): IntRead {
    var k := SpanDigits(t);
    var rest := t[k..];
    var m: int := Value(t[..k]);
    var n := if negative then -m else m;
    if k == 0 then IntRead(0, Stream(rest, rest == [], true))
    else if n > INT_MAX then IntRead(INT_MAX, Stream(rest, rest == [], true))
    else if n < INT_MIN then IntRead(INT_MIN, Stream(rest, rest == [], true))
    else IntRead(n, Stream(rest, rest == [], false))
  }

  /** `stream >> number`. Nothing there leaves the number as it was. */
  function GetInt(st: Stream, before: int): IntRead {
    if !st.Good() then IntRead(before, st.(fail := true))
    else
      var s := st.rest[SpanSpace(st.rest, true)..];
      if s == [] then IntRead(before, Stream([], true, true)) else TakeNumber(s)
  }

  predicate IsBlank(c: char) {
    c == ' ' || c == '\t'
  }

  /** `s.substr(s.find_first_not_of(" \t"))`, which throws when there is none. */
  function SkipBlanks(s: string): Option<string> {
    if s == [] then None
    else if IsBlank(s[0]) then SkipBlanks(s[1..])
    else Some(s)
  }

  /** What one header line does to the headers. A line without ':' is ignored. */
  function TakeField(line: string, h: map<string, string>): Result<map<string, string>, HttpError> {
    var colon := IndexOf(line, ':');
    if colon == |line| then Success(h)
    else
      match SkipBlanks(line[..colon])
      case None => Failure(OutOfRange)
      case Some(k) =>
        match SkipBlanks(line[colon + 1..])
        case None => Failure(OutOfRange)
        case Some(v) => Success(h[k := v])
  }

  predicate EndsHeaders(got: Read) {
    got.from.fail || got.text == [] || got.text == ['\r']
  }

  /** Header lines up to an empty one, from the line just read. */
  function TakeFields(got: Read, h: map<string, string>): Result<(map<string, string>, Stream), HttpError>
    decreases if got.from.fail then 0 else 1 + |got.from.rest|
  {
    if EndsHeaders(got) then Success((h, got.from))
    else
      match TakeField(got.text, h)
      case Failure(e) => Failure(e)
      case Success(h') => TakeFields(GetLine(got.from, '\n', got.text), h')
  }

  /** The remaining lines, each with a newline behind it. */
  function Body(st: Stream): string {
    if st.Good() then Unlines(Lines(st.rest)) else []
  }

  /** `indeterminate` is the value of the uninitialised status variable. */
  function ParseResponse(text: string, indeterminate: int): Result<Response, HttpError> {
    var version := GetWord(Open(text), []);
    var status := GetInt(version.from, indeterminate);
    var reason := GetLine(status.from, '\n', []);
    match TakeFields(GetLine(reason.from, '\n', []), map[])
    case Failure(e) => Failure(e)
    case Success((h, st)) => Success(Response(status.value, Fields(h, Body(st)).WithLength()))
  }

  /** Content-Length matches in every response parsed from any text. */
  lemma ParsedLengthMatches(text: string, indeterminate: int)
    ensures var r := ParseResponse(text, indeterminate); r.Success? ==> r.value.fields.LengthMatches()
  {
    hide TakeFields, Body, Decimal;
  }

  // ------------------------------------------ what any text is parsed into

  /** The lines that end the headers. */
  predicate IsBreak(line: string) {
    line == [] || line == ['\r']
  }

  function FirstBreak(ls: seq<string>): (p: nat)
    ensures p <= |ls| && (forall l <- ls[..p] :: !IsBreak(l)) && (p < |ls| ==> IsBreak(ls[p]))
  {
    if ls == [] || IsBreak(ls[0]) then 0 else
      var p := 1 + FirstBreak(ls[1..]);
      assert ls[..p] == [ls[0]] + ls[1..][..p - 1];
      p
  }

  /** The headers that these lines give, one after the other. */
  function FoldFields(ls: seq<string>, h: map<string, string>): Result<map<string, string>, HttpError> {
    if ls == [] then Success(h)
    else
      match TakeField(ls[0], h)
      case Failure(e) => Failure(e)
      case Success(h') => FoldFields(ls[1..], h')
  }

  /** The response made of a status and the lines behind the status line. */
  function Assembled(status: int, ls: seq<string>): Result<Response, HttpError> {
    var p := FirstBreak(ls);
    match FoldFields(ls[..p], map[])
    case Failure(e) => Failure(e)
    case Success(h) => Success(Response(status, Fields(h, Unlines(if p < |ls| then ls[p + 1..] else [])).WithLength()))
  }

  lemma BreakStep(line: string, rest: seq<string>)
    ensures FirstBreak([line] + rest) == if IsBreak(line) then 0 else 1 + FirstBreak(rest)
    ensures var ls, p := [line] + rest, FirstBreak(rest);
            && ls[..p + 1] == [line] + rest[..p] && (p < |rest| ==> ls[p + 2..] == rest[p + 1..])
            && ls[1..] == rest
  {
    Cons(line, rest);
    hide IsBreak;
    SlicesOfCons(line, rest, FirstBreak(rest));
  }

  lemma SlicesOfCons(line: string, rest: seq<string>, p: nat)
    requires p <= |rest|
    ensures ([line] + rest)[..p + 1] == [line] + rest[..p]
    ensures p < |rest| ==> ([line] + rest)[p + 2..] == rest[p + 1..]
  {
  }

  /** The loop over the header lines and what is behind it, as one function of
      the lines. */
  lemma {:induction false} TakeFieldsIs(got: Read, h: map<string, string>)
    requires got.from.eof ==> got.from.rest == []
    ensures var ls := Pending(got);
            var p := FirstBreak(ls);
            match FoldFields(ls[..p], h)
            case Failure(e) => TakeFields(got, h) == Failure(e)
            case Success(h') =>
              && TakeFields(got, h).Success? && TakeFields(got, h).value.0 == h'
              && Body(TakeFields(got, h).value.1) == Unlines(if p < |ls| then ls[p + 1..] else [])
    decreases if got.from.fail then 0 else 1 + |got.from.rest|
  {
    hide TakeField, GetLine, Lines, Unlines, FirstBreak;
    if EndsHeaders(got) {
      TakeFieldsStops(got, h);
    } else {
      var next := GetLine(got.from, '\n', got.text);
      PendingStep(got);
      BreakStep(got.text, Pending(next));
      Cons(got.text, Pending(next)[..FirstBreak(Pending(next))]);
      var taken := TakeField(got.text, h);
      if taken.Success? {
        TakeFieldsIs(next, taken.value);
      }
    }
  }

  lemma TakeFieldsStops(got: Read, h: map<string, string>)
    requires EndsHeaders(got) && (got.from.eof ==> got.from.rest == [])
    ensures var ls := Pending(got);
            && FirstBreak(ls) == 0 && FoldFields([], h) == Success(h) && ls[..0] == []
            && TakeFields(got, h) == Success((h, got.from))
            && Body(got.from) == Unlines(if 0 < |ls| then ls[1..] else [])
  {
    NothingRead();
    hide TakeField, GetLine, Lines, Unlines;
  }

  lemma NothingRead()
    ensures Lines([]) == [] && Unlines([]) == []
  {
  }

  /** What is behind the status number: the lines but the first one. */
  lemma BehindStatus(st: Stream)
    requires st.eof ==> st.rest == []
    ensures var got := GetLine(GetLine(st, '\n', []).from, '\n', []);
            && (got.from.eof ==> got.from.rest == [])
            && Pending(got) == (if st.Good() && st.rest != [] then Lines(st.rest)[1..] else [])
  {
    if st.Good() && st.rest != [] {
      GetLineTakesOne(st, []);
      var reason := GetLine(st, '\n', []);
      hide Lines;
      if reason.from.Good() {
        PendingAtOpen(reason.from.rest, []);
      } else {
        NothingRead();
      }
    }
  }

  /** Any text: once the number is read, the rest goes line by line. */
  lemma ParseBehind(text: string, indeterminate: int)
    ensures var status := GetInt(GetWord(Open(text), []).from, indeterminate);
            var st := status.from;
            (st.eof ==> st.rest == []) ==>
              ParseResponse(text, indeterminate)
              == Assembled(status.value, if st.Good() && st.rest != [] then Lines(st.rest)[1..] else [])
  {
    hide GetWord, GetInt, Lines, GetLine, TakeFields, Unlines, FoldFields, FirstBreak, Body, Decimal;
    var status := GetInt(GetWord(Open(text), []).from, indeterminate);
    if status.from.eof ==> status.from.rest == [] {
      BehindStatus(status.from);
      TakeFieldsIs(GetLine(GetLine(status.from, '\n', []).from, '\n', []), map[]);
    }
  }

  lemma SpanDigitsIs(s: string, k: nat)
    requires k <= |s| && (forall i | 0 <= i < k :: IsDigit(s[i])) && (k < |s| ==> !IsDigit(s[k]))
    ensures SpanDigits(s) == k
  {
  }

  predicate IsNumber(digits: string) {
    digits != [] && forall c <- digits :: IsDigit(c)
  }

  predicate IsSign(sign: string) {
    sign == [] || sign == ['-'] || sign == ['+']
  }

  function Number(sign: string, digits: string): int
    requires IsNumber(digits)
  {
    var m: int := Value(digits);
    if sign == ['-'] then -m else m
  }

  function Clamp(n: int): int {
    if n > INT_MAX then INT_MAX else if n < INT_MIN then INT_MIN else n
  }

  lemma DigitsBefore(d: string, rest: string)
    requires (forall c <- d :: IsDigit(c)) && (rest != [] ==> !IsDigit(rest[0]))
    ensures SpanDigits(d + rest) == |d| && (d + rest)[..|d|] == d && (d + rest)[|d|..] == rest
  {
    assert forall i | 0 <= i < |d| :: (d + rest)[i] == d[i] && d[i] in d;
    SpanDigitsIs(d + rest, |d|);
  }

  lemma SignSplits(sign: string, s: string)
    requires IsSign(sign) && (sign == [] && s != [] ==> s[0] != '-' && s[0] != '+')
    ensures var t := sign + s;
            t != [] ==> (if t[0] == '-' || t[0] == '+' then t[1..] else t) == s && (t[0] == '-' <==> sign == ['-'])
  {
  }

  /** A number in front of something else: all its digits count, and one that
      does not fit an `int` is clamped and fails the stream. */
  lemma NumberIs(sign: string, digits: string, rest: string)
    requires IsSign(sign) && IsNumber(digits) && (rest != [] ==> !IsDigit(rest[0]))
    ensures var s, n := sign + (digits + rest), Number(sign, digits);
            s != [] && TakeNumber(s) == IntRead(Clamp(n), Stream(rest, rest == [], n != Clamp(n)))
  {
    var s := digits + rest;
    assert s[0] == digits[0] && IsDigit(digits[0]);
    SignSplits(sign, s);
    TakeDigitsIs(sign == ['-'], digits, rest);
    hide TakeDigits, Value;
  }

  lemma TakeDigitsIs(negative: bool, digits: string, rest: string)
    requires IsNumber(digits) && (rest != [] ==> !IsDigit(rest[0]))
    ensures var n := Number(if negative then ['-'] else [], digits);
            TakeDigits(negative, digits + rest) == IntRead(Clamp(n), Stream(rest, rest == [], n != Clamp(n)))
  {
    DigitsBefore(digits, rest);
    hide SpanDigits, Value;
  }

  /** What is not a number gives zero, and fails the stream. */
  lemma NoNumberIs(sign: string, s: string)
    requires IsSign(sign) && sign + s != [] && (s != [] ==> !IsDigit(s[0]))
    requires sign == [] ==> s[0] != '-' && s[0] != '+'
    ensures TakeNumber(sign + s) == IntRead(0, Stream(s, s == [], true))
  {
    SignSplits(sign, s);
    DigitsBefore([], s);
    assert [] + s == s;
    hide SpanDigits, Value;
  }

  /** A response without headers and content. */
  function Bare(status: int): Response {
    Response(status, Fields(map[CONTENT_LENGTH := "0"], []))
  }

  lemma AssembledBare(status: int)
    ensures Assembled(status, []) == Success(Bare(status))
  {
    ZeroIs();
    NothingRead();
  }

  /** The version word, skipped, and the number behind it, up to its sign. */
  lemma NumberBehind(g: string, w: string, g': string, s: string, before: int)
    requires AllSpace(g) && IsWord(w) && Separates(g') && s != [] && !IsSpace(s[0])
    ensures GetInt(GetWord(Open(g + (w + (g' + s))), []).from, before) == TakeNumber(s)
  {
    assert IsSpace((g' + s)[0]) by {
      assert g'[0] in g';
    }
    Assoc(g, w, g' + s);
    WordIs(Open(g + (w + (g' + s))), g, w, g' + s);
    SpanGap(g', s);
    hide GetWord, TakeNumber, SpanSpace, IsSpace;
  }

  lemma NumbersAreNoSpace(sign: string, s: string)
    requires IsSign(sign) && (s != [] ==> IsDigit(s[0]))
    ensures sign + s != [] ==> !IsSpace((sign + s)[0])
  {
  }

  /** Any text with a word and a number in front: if the number fits an `int`, it
      is the status, the rest of its line is skipped, and the lines behind it are
      headers and content; if not, it is clamped and nothing else is read. */
  lemma StatusExactly(g: string, w: string, g': string, sign: string, digits: string, rest: string, indeterminate: int)
    requires AllSpace(g) && IsWord(w) && Separates(g')
    requires IsSign(sign) && IsNumber(digits) && (rest != [] ==> !IsDigit(rest[0]))
    ensures var n := Number(sign, digits);
            ParseResponse(g + (w + (g' + (sign + (digits + rest)))), indeterminate)
            == if n == Clamp(n) then Assembled(n, if rest == [] then [] else Lines(rest)[1..])
               else Success(Bare(Clamp(n)))
  {
    var s := sign + (digits + rest);
    assert (digits + rest)[0] == digits[0] && digits[0] in digits;
    hide ParseResponse, Assembled, TakeNumber, Number, Clamp, Lines, AllSpace, IsWord, Separates;
    NumbersAreNoSpace(sign, digits + rest);
    NumberBehind(g, w, g', s, indeterminate);
    NumberIs(sign, digits, rest);
    ParseBehind(g + (w + (g' + s)), indeterminate);
    AssembledBare(Clamp(Number(sign, digits)));
  }

  /** Any text with a word in front and no number behind it has status zero. */
  lemma NoStatusNumber(g: string, w: string, g': string, sign: string, s: string, indeterminate: int)
    requires AllSpace(g) && IsWord(w) && Separates(g')
    requires IsSign(sign) && sign + s != [] && !IsSpace((sign + s)[0]) && (s != [] ==> !IsDigit(s[0]))
    requires sign == [] ==> s[0] != '-' && s[0] != '+'
    ensures ParseResponse(g + (w + (g' + (sign + s))), indeterminate) == Success(Bare(0))
  {
    hide ParseResponse, Assembled, TakeNumber, Lines, AllSpace, IsWord, Separates, IsSpace;
    NumberBehind(g, w, g', sign + s, indeterminate);
    NoNumberIs(sign, s);
    ParseBehind(g + (w + (g' + (sign + s))), indeterminate);
    AssembledBare(0);
  }

  /** And a text of one word or none leaves the status as it was, unset. */
  lemma NoStatusAtAll(text: string, indeterminate: int)
    requires |Words(text)| <= 1
    ensures ParseResponse(text, indeterminate) == Success(Bare(indeterminate))
  {
    GetWordTakesOne(Open(text), []);
    hide ParseResponse, Assembled, GetWord, Lines, Words;
    var version := GetWord(Open(text), []);
    assert Words(version.from.rest) == [];
    WordsNone(version.from.rest);
    ParseBehind(text, indeterminate);
    AssembledBare(indeterminate);
  }

  lemma WordsNone(s: string)
    requires Words(s) == []
    ensures s[SpanSpace(s, true)..] == []
  {
    var k := SpanSpace(s, true);
    assert s == s[..k] + s[k..];
    WordsSkip(s[..k], s[k..]);
  }

  // --------------------------------------------------------- one header line

  predicate AllBlank(s: string) {
    forall c <- s :: c == ' ' || c == '\t'
  }

  lemma {:induction false} SkipBlanksIs(lead: string, s: string)
    requires AllBlank(lead) && (s != [] ==> !IsBlank(s[0]))
    ensures SkipBlanks(lead + s) == if s == [] then None else Some(s)
  {
    if lead == [] {
      assert lead + s == s;
    } else {
      assert lead[0] in lead && forall c <- lead[1..] :: c in lead;
      assert (lead + s)[1..] == lead[1..] + s;
      SkipBlanksIs(lead[1..], s);
    }
  }

  /** A header line with a name and a value, each with blanks in front or none. */
  lemma FieldLineIs(lead: string, k: string, gap: string, v: string, h: map<string, string>)
    requires AllBlank(lead) && AllBlank(gap) && ':' !in k
    requires k != [] ==> !IsBlank(k[0])
    requires v != [] ==> !IsBlank(v[0])
    ensures TakeField(lead + k + [':'] + (gap + v), h)
         == if k == [] || v == [] then Failure(OutOfRange) else Success(h[k := v])
  {
    var line := lead + k + [':'] + (gap + v);
    assert ':' !in lead + k;
    IndexOfIs(lead + k, ':', gap + v);
    assert line[..|lead + k|] == lead + k && line[|lead + k| + 1..] == gap + v;
    SkipBlanksIs(lead, k);
    SkipBlanksIs(gap, v);
    hide SkipBlanks, IndexOf;
  }

  /** A line without ':' is passed over. */
  lemma NoFieldLine(line: string, h: map<string, string>)
    requires ':' !in line
    ensures TakeField(line, h) == Success(h)
  {
  }

  /** A header line: blanks, name, blanks, value, and whether a carriage return
      stands in front of its newline. */
  datatype FieldText = FieldText(lead: string, name: string, gap: string, value: string, cr: bool)

  function Return(cr: bool): string {
    if cr then ['\r'] else []
  }

  function RawValue(f: FieldText): string {
    f.value + Return(f.cr)
  }

  function RawLine(f: FieldText): string {
    f.lead + f.name + [':'] + (f.gap + RawValue(f))
  }

  /** Something is left of name and value when the blanks are gone. */
  predicate GivesField(f: FieldText) {
    && AllBlank(f.lead) && AllBlank(f.gap)
    && FieldReadable(f.name, f.value) && RawValue(f) != []
  }

  function RawLines(fs: seq<FieldText>): (ls: seq<string>)
    ensures |ls| == |fs| && forall i | 0 <= i < |fs| :: ls[i] == RawLine(fs[i])
  {
    seq(|fs|, i requires 0 <= i < |fs| => RawLine(fs[i]))
  }

  /** The headers written, a later one in place of an earlier one of its name. */
  function Written(fs: seq<FieldText>, h: map<string, string>): map<string, string> {
    if fs == [] then h else Written(fs[1..], h[fs[0].name := RawValue(fs[0])])
  }

  lemma RawLineIs(f: FieldText, h: map<string, string>)
    requires GivesField(f)
    ensures TakeField(RawLine(f), h) == Success(h[f.name := RawValue(f)])
    ensures !IsBreak(RawLine(f)) && '\n' !in RawLine(f)
  {
    assert RawValue(f) != [] && !IsBlank(RawValue(f)[0]);
    FieldLineIs(f.lead, f.name, f.gap, RawValue(f), h);
    hide TakeField;
    assert ':' in RawLine(f);
  }

  lemma {:induction false} FoldRawLines(fs: seq<FieldText>, h: map<string, string>)
    requires forall f <- fs :: GivesField(f)
    ensures FoldFields(RawLines(fs), h) == Success(Written(fs, h))
  {
    hide TakeField, RawLine, GivesField, RawValue;
    if fs != [] {
      assert fs[0] in fs;
      RawLineIs(fs[0], h);
      assert RawLines(fs)[1..] == RawLines(fs[1..]);
      FoldRawLines(fs[1..], h[fs[0].name := RawValue(fs[0])]);
    }
  }

  lemma FirstBreakIs(ls: seq<string>, p: nat)
    requires p < |ls| && (forall l <- ls[..p] :: !IsBreak(l)) && IsBreak(ls[p])
    ensures FirstBreak(ls) == p
  {
    var q := FirstBreak(ls);
    assert forall i | 0 <= i < p :: ls[i] == ls[..p][i] && ls[..p][i] in ls[..p];
    assert forall i | 0 <= i < q :: ls[i] == ls[..q][i] && ls[..q][i] in ls[..q];
  }

  lemma AssembledOfRaw(status: int, fs: seq<FieldText>, brk: string, more: seq<string>)
    requires (forall f <- fs :: GivesField(f)) && IsBreak(brk)
    ensures Assembled(status, RawLines(fs) + ([brk] + more))
         == Success(Response(status, Fields(Written(fs, map[]), Unlines(more)).WithLength()))
  {
    hide GivesField, RawLine, IsBreak, FirstBreak, FoldFields, Unlines, Written;
    var raw := RawLines(fs);
    var ls := raw + ([brk] + more);
    forall l <- raw
      ensures !IsBreak(l)
    {
      var i :| 0 <= i < |raw| && raw[i] == l;
      assert fs[i] in fs;
      RawLineIs(fs[i], map[]);
    }
    assert ls[..|raw|] == raw && ls[|raw|] == brk && ls[|raw| + 1..] == more;
    FirstBreakIs(ls, |raw|);
    FoldRawLines(fs, map[]);
  }

  /** The text behind the status number: the rest of its line, the header lines,
      an empty line, each with a carriage return or without, and the body. */
  function Behind(reason: string, fs: seq<FieldText>, cr: bool, body: string): string {
    Unlines([reason] + (RawLines(fs) + [Return(cr)])) + body
  }

  lemma LinesBehind(reason: string, fs: seq<FieldText>, cr: bool, body: string)
    requires '\n' !in reason && forall f <- fs :: GivesField(f)
    ensures var s := Behind(reason, fs, cr, body);
            s != [] && Lines(s)[1..] == RawLines(fs) + ([Return(cr)] + Lines(body))
    ensures reason == [] ==> Behind(reason, fs, cr, body)[0] == '\n'
    ensures reason != [] ==> Behind(reason, fs, cr, body)[0] == reason[0]
  {
    hide GivesField, RawLine, Lines;
    var raw := RawLines(fs);
    var ls := [reason] + (raw + [Return(cr)]);
    forall l <- ls
      ensures '\n' !in l
    {
      if l in raw {
        var i :| 0 <= i < |raw| && raw[i] == l;
        assert fs[i] in fs;
        RawLineIs(fs[i], map[]);
      }
    }
    Cons(reason, raw + [Return(cr)]);
    LinesOfUnlines(ls);
    LinesAppend(Unlines(ls), body);
    assert (ls + Lines(body))[1..] == raw + ([Return(cr)] + Lines(body));
  }

  /** Every line may end with a newline alone or with a carriage return before
      it. Parsing gives exactly the headers written, with a carriage return behind
      the value where one was written, and as content everything behind the first
      empty line, finished by a newline. */
  lemma MixedEndingsParse(g: string, w: string, g': string, sign: string, digits: string,
                          reason: string, fs: seq<FieldText>, cr: bool, body: string, indeterminate: int)
    requires AllSpace(g) && IsWord(w) && Separates(g')
    requires IsSign(sign) && IsNumber(digits) && Number(sign, digits) == Clamp(Number(sign, digits))
    requires '\n' !in reason && (reason != [] ==> !IsDigit(reason[0]))
    requires forall f <- fs :: GivesField(f)
    ensures ParseResponse(g + (w + (g' + (sign + (digits + Behind(reason, fs, cr, body))))), indeterminate)
         == Success(Response(Number(sign, digits), Fields(Written(fs, map[]), Finished(body)).WithLength()))
  {
    hide ParseResponse, Assembled, Behind, GivesField, Lines, Unlines;
    hide AllSpace, IsWord, Separates, IsSign, Number, Clamp;
    LinesBehind(reason, fs, cr, body);
    StatusExactly(g, w, g', sign, digits, Behind(reason, fs, cr, body), indeterminate);
    AssembledOfRaw(Number(sign, digits), fs, Return(cr), Lines(body));
    UnlinesOfLines(body);
  }

  // ------------------------------------------------ parsing what was printed

  lemma GetIntIs(n: int, rest: string, before: int)
    requires INT_MIN <= n <= INT_MAX
    ensures GetInt(Stream([' '] + Signed(n) + ([' '] + rest), false, false), before)
         == IntRead(n, Stream([' '] + rest, false, false))
  {
    SignedStarts(n);
    TakeNumberIs(n, rest);
    BlankIsSpace();
    hide Signed, TakeNumber, SpanSpace, IsSpace, AllSpace;
    var s := Signed(n) + ([' '] + rest);
    Assoc([' '], Signed(n), [' '] + rest);
    SpanGap([' '], s);
  }

  lemma SignedStarts(n: int)
    ensures Signed(n) != [] && !IsSpace(Signed(n)[0])
  {
    assert IsDigit(Decimal(if n < 0 then -n else n)[0]);
  }

  lemma TakeNumberIs(n: int, rest: string)
    requires INT_MIN <= n <= INT_MAX
    ensures var s := Signed(n) + ([' '] + rest);
            s != [] && TakeNumber(s) == IntRead(n, Stream([' '] + rest, false, false))
  {
    var d := Decimal(if n < 0 then -n else n);
    ValueOfDecimal(if n < 0 then -n else n);
    var sign := if n < 0 then ['-'] else [];
    assert Signed(n) == sign + d;
    Assoc(sign, d, [' '] + rest);
    NumberIs(sign, d, [' '] + rest);
  }

  /** A name and a value that a header line gives back, but for the carriage return. */
  predicate FieldReadable(k: string, v: string) {
    NameHolds(k) && '\n' !in v && k != [] && !IsBlank(k[0]) && (v != [] ==> !IsBlank(v[0]))
  }

  predicate Readable(h: map<string, string>) {
    forall k <- h :: FieldReadable(k, h[k])
  }

  lemma ReadableWith(h: map<string, string>, k: string, v: string)
    requires Readable(h) && FieldReadable(k, v)
    ensures Readable(h[k := v])
  {
  }

  lemma {:induction false} SkipBlanksStarts(s: string)
    ensures match SkipBlanks(s)
            case None => true
            case Some(r) => r != [] && !IsBlank(r[0]) && forall c <- r :: c in s
  {
    if s != [] && IsBlank(s[0]) {
      SkipBlanksStarts(s[1..]);
    }
  }

  lemma TakeFieldReadable(line: string, h: map<string, string>)
    requires '\n' !in line && Readable(h)
    ensures TakeField(line, h).Success? ==> Readable(TakeField(line, h).value)
  {
    var colon := IndexOf(line, ':');
    if colon < |line| {
      var name, value := SkipBlanks(line[..colon]), SkipBlanks(line[colon + 1..]);
      SkipBlanksStarts(line[..colon]);
      SkipBlanksStarts(line[colon + 1..]);
      hide SkipBlanks, Readable;
      if name.Some? && value.Some? {
        ReadableWith(h, name.value, value.value);
      }
    }
  }

  lemma {:induction false} TakeFieldsReadable(got: Read, h: map<string, string>)
    requires '\n' !in got.text && Readable(h)
    ensures TakeFields(got, h).Success? ==> Readable(TakeFields(got, h).value.0)
    decreases if got.from.fail then 0 else 1 + |got.from.rest|
  {
    hide Readable, TakeField, GetLine;
    if !EndsHeaders(got) {
      TakeFieldReadable(got.text, h);
      var taken := TakeField(got.text, h);
      if taken.Success? {
        GetLineMembers(got.from, '\n', got.text);
        TakeFieldsReadable(GetLine(got.from, '\n', got.text), taken.value);
      }
    }
  }

  /** Whatever text a response was parsed from, its headers are readable. */
  lemma ParsedIsReadable(text: string, indeterminate: int)
    ensures var r := ParseResponse(text, indeterminate); r.Success? ==> Readable(r.value.fields.headers)
  {
    var version := GetWord(Open(text), []);
    var status := GetInt(version.from, indeterminate);
    var reason := GetLine(status.from, '\n', []);
    var got := GetLine(reason.from, '\n', []);
    GetLineMembers(reason.from, '\n', []);
    hide GetWord, GetInt, GetLine, Readable, TakeFields, Body;
    assert Readable(map[]) by {
      NoHeadersReadable();
    }
    TakeFieldsReadable(got, map[]);
    var r := ParseResponse(text, indeterminate);
    if r.Success? {
      LengthReadable(|r.value.fields.content|);
      ReadableWith(TakeFields(got, map[]).value.0, CONTENT_LENGTH, Decimal(|r.value.fields.content|));
    }
  }

  lemma NoHeadersReadable()
    ensures Readable(map[])
  {
  }

  lemma LengthReadable(n: nat)
    ensures FieldReadable(CONTENT_LENGTH, Decimal(n))
  {
    DecimalHolds(n);
    assert IsDigit(Decimal(n)[0]);
  }

  function WithReturns(keys: seq<string>, h: map<string, string>): map<string, string>
    requires forall k <- keys :: k in h
  {
    map k | k in keys :: h[k] + ['\r']
  }

  lemma SkipNoBlanks(s: string)
    requires s != [] && !IsBlank(s[0])
    ensures SkipBlanks(s) == SkipBlanks([' '] + s) == Some(s)
  {
    Cons(' ', s);
  }

  lemma FieldSplits(k: string, v: string)
    ensures var line := k + [':', ' '] + v + ['\r'];
            && line == k + [':'] + ([' '] + (v + ['\r']))
            && |k| < |line| && line[..|k|] == k && line[|k| + 1..] == [' '] + (v + ['\r'])
  {
  }

  lemma TakePrintedField(k: string, v: string, h: map<string, string>)
    requires FieldReadable(k, v)
    ensures TakeField(k + [':', ' '] + v + ['\r'], h) == Success(h[k := v + ['\r']])
  {
    FieldSplits(k, v);
    IndexOfIs(k, ':', [' '] + (v + ['\r']));
    SkipNoBlanks(k);
    SkipNoBlanks(v + ['\r']);
    hide SkipBlanks, IndexOf;
  }

  lemma ReturnsStep(keys: seq<string>, h: map<string, string>, m: map<string, string>)
    requires keys != [] && forall k <- keys :: k in h
    ensures m[keys[0] := h[keys[0]] + ['\r']] + WithReturns(keys[1..], h) == m + WithReturns(keys, h)
  {
    assert forall j :: j in keys <==> j == keys[0] || j in keys[1..];
  }

  lemma TakeNoFields(m: map<string, string>, h: map<string, string>, body: string, line: string)
    ensures TakeFields(GetLine(Open(CRLF + body), '\n', line), m)
         == Success((m + WithReturns([], h), Open(body)))
  {
    GetLineIs(['\r'], '\n', body, line);
    assert CRLF + body == ['\r'] + ['\n'] + body;
    assert m + WithReturns([], h) == m;
  }

  lemma {:induction false} TakePrinted(keys: seq<string>, h: map<string, string>, m: map<string, string>,
                                       body: string, line: string)
    requires (forall k <- keys :: k in h) && Readable(h)
    ensures TakeFields(GetLine(Open(PrintFields(keys, h) + CRLF + body), '\n', line), m)
         == Success((m + WithReturns(keys, h), Open(body)))
    decreases |keys|
  {
    hide GetLine, TakeField, WithReturns, FieldLine, HeadersHold;
    if keys == [] {
      TakeNoFields(m, h, body, line);
      assert PrintFields(keys, h) + CRLF + body == CRLF + body;
    } else {
      TakePrintedStep(keys, h, m, body, line);
      TakePrinted(keys[1..], h, m[keys[0] := h[keys[0]] + ['\r']], body, FieldLine(keys[0], h) + ['\r']);
      ReturnsStep(keys, h, m);
    }
  }

  lemma TakePrintedStep(keys: seq<string>, h: map<string, string>, m: map<string, string>, body: string, line: string)
    requires keys != [] && (forall k <- keys :: k in h) && Readable(h)
    ensures TakeFields(GetLine(Open(PrintFields(keys, h) + CRLF + body), '\n', line), m)
         == TakeFields(GetLine(Open(PrintFields(keys[1..], h) + CRLF + body), '\n', FieldLine(keys[0], h) + ['\r']),
                       m[keys[0] := h[keys[0]] + ['\r']])
  {
    var k, f := keys[0], FieldLine(keys[0], h) + ['\r'];
    var rest := PrintFields(keys[1..], h) + CRLF + body;
    assert k in keys && NameHolds(k);
    FieldLineHolds(k, h);
    hide GetLine, TakeField, HeadersHold, NameHolds;
    PrintedStep(FieldLine(k, h), PrintFields(keys[1..], h), body);
    GetLineIs(f, '\n', rest, line);
    TakePrintedField(k, h[k], m);
  }

  lemma PrintedStep(f: string, more: string, body: string)
    ensures f + CRLF + more + CRLF + body == (f + ['\r']) + ['\n'] + (more + CRLF + body)
  {
  }

  lemma StatusLineReads(status: int, rest: string, before: int)
    requires INT_MIN <= status <= INT_MAX
    ensures var version := GetWord(Open(StatusLine(status) + CRLF + rest), []);
            var read := GetInt(version.from, before);
            && read.value == status
            && GetLine(read.from, '\n', []).from == Open(rest)
  {
    var v, n, p := VersionName(HTTP_1_1), Signed(status), ReasonPhrase(status);
    NamesAreWords(GET, HTTP_1_1);
    VersionLength();
    ReasonHolds(status);
    BlankIsSpace();
    hide VersionName, Signed, ReasonPhrase, GetWord, GetInt, GetLine, AllSpace;
    var afterNumber := p + CRLF + rest;
    assert StatusLine(status) + CRLF + rest == [] + v + ([' '] + n + ([' '] + afterNumber));
    WordIs(Open(StatusLine(status) + CRLF + rest), [], v, [' '] + n + ([' '] + afterNumber));
    GetIntIs(status, afterNumber, before);
    assert [' '] + afterNumber == ([' '] + p + ['\r']) + ['\n'] + rest;
    GetLineIs([' '] + p + ['\r'], '\n', rest, []);
  }

  lemma ReasonHolds(status: int)
    ensures '\n' !in ReasonPhrase(status)
  {
    hide ReasonFrom400;
    ReasonHoldsFrom400(status);
  }

  lemma ReasonHoldsFrom400(status: int)
    ensures '\n' !in ReasonFrom400(status)
  {
  }

  /** The body as it comes back: finished by a newline, if there is any. */
  function Finished(content: string): string {
    if Terminated(content) then content else content + ['\n']
  }

  /** Exactly what parsing makes of a printed response: the status and the header
      names are kept, every value has the carriage return behind it that the
      parser does not strip, the body is finished by a newline, and
      Content-Length is that of the body so finished. */
  lemma ReparseExactly(r: Response, sendContent: bool, indeterminate: int)
    requires INT_MIN <= r.status <= INT_MAX && Readable(r.fields.headers)
    ensures var h, body := r.fields.headers, if sendContent then Finished(r.fields.content) else [];
            ParseResponse(PrintResponse(r, sendContent), indeterminate)
            == Success(Response(r.status, Fields(map k | k in h :: h[k] + ['\r'], body).WithLength()))
  {
    hide GetWord, GetInt, GetLine, TakeFields, StatusLine, Unlines, Lines, PrintFields, OrderedKeys, Readable, Decimal;
    var h, body := r.fields.headers, if sendContent then r.fields.content else [];
    var keys := OrderedKeys(h.Keys);
    var rest := PrintFields(keys, h) + CRLF + body;
    ResponseSplits(StatusLine(r.status), PrintFields(keys, h), body);
    StatusLineReads(r.status, rest, indeterminate);
    TakePrinted(keys, h, map[], body, []);
    UnlinesOfLines(body);
    assert map[] + WithReturns(keys, h) == map k | k in h :: h[k] + ['\r'];
  }

  lemma ResponseSplits(s: string, f: string, body: string)
    ensures s + CRLF + f + CRLF + body == s + CRLF + (f + CRLF + body)
  {
  }

  /** So a response, whatever its headers, comes back unchanged exactly when
      Content-Length is its only header and the body is empty or finished by a
      newline. The status is an `int`. */
  lemma ResponseRoundTripExactly(r: Response, indeterminate: int)
    requires INT_MIN <= r.status <= INT_MAX
    ensures ParseResponse(PrintResponse(r, true), indeterminate) == Success(r)
       <==> r.fields.headers == map[CONTENT_LENGTH := Decimal(|r.fields.content|)] && Terminated(r.fields.content)
  {
    hide ParseResponse, PrintResponse, Readable, Decimal;
    var h := r.fields.headers;
    ParsedIsReadable(PrintResponse(r, true), indeterminate);
    LengthReadable(|r.fields.content|);
    NoHeadersReadable();
    ReadableWith(map[], CONTENT_LENGTH, Decimal(|r.fields.content|));
    if Readable(h) {
      var h' := map k | k in h :: h[k] + ['\r'];
      ReparseExactly(r, true, indeterminate);
      if h'[CONTENT_LENGTH := Decimal(|r.fields.content|)] == h {
        forall k <- h
          ensures k == CONTENT_LENGTH
        {
          assert |h'[k]| == |h[k]| + 1;
        }
      }
    }
  }

  // ----------------------------------------------------------- the operations

  class HttpResponse {
    const message: HttpMessage
    var status: int

    constructor ()
      ensures fresh(message) && Value() == Response(200, Fields(map[], []))
    {
      status := 200;
      message := new HttpMessage();
    }

    function Value(): Response
      reads this, message
    {
      Response(status, message.Value())
    }
  }

  method ToString(response: HttpResponse, sendContent: bool) returns (oss: string)
    ensures oss == PrintResponse(response.Value(), sendContent)
  {
    oss := VersionName(response.message.version) + [' '];
    oss := oss + Signed(response.status) + [' '];
    oss := oss + ReasonPhrase(response.status) + CRLF;
    oss := PrintHeaders(oss, response.message.headers);
    oss := oss + CRLF;
    if sendContent {
      oss := oss + response.message.content;
    }
  }

  method StringToResponse(text: string, indeterminate: int) returns (r: Result<HttpResponse, HttpError>)
    ensures match ParseResponse(text, indeterminate)
            case Failure(e) => r == Failure(e)
            case Success(response) =>
              r.Success? && fresh(r.value) && fresh(r.value.message) && r.value.Value() == response
  {
    hide GetWord, GetInt, GetLine, TakeFields, Body;
    var response := new HttpResponse();
    var version := GetWord(Open(text), []);
    var status := GetInt(version.from, indeterminate);
    var reason := GetLine(status.from, '\n', []);
    response.status := status.value;
    var headers := ReadFields(response.message, reason.from);
    if headers.Failure? {
      return Failure(headers.error);
    }
    var messageBody := ReadBody(headers.value);
    response.message.SetContent(messageBody);
    r := Success(response);
  }

  /** The loop over the header lines; gives the stream behind them. */
  method ReadFields(message: HttpMessage, from: Stream) returns (r: Result<Stream, HttpError>)
    modifies message
    ensures match TakeFields(GetLine(from, '\n', []), old(message.headers))
            case Failure(e) => r == Failure(e)
            case Success((h, st)) => r == Success(st) && message.headers == h
  {
    var got := GetLine(from, '\n', []);
    hide TakeField, GetLine;
    while !EndsHeaders(got)
      invariant TakeFields(got, message.headers) == TakeFields(GetLine(from, '\n', []), old(message.headers))
      decreases if got.from.fail then 0 else 1 + |got.from.rest|
    {
      var taken := TakeField(got.text, message.headers);
      if taken.Failure? {
        return Failure(taken.error);
      }
      message.headers := taken.value;
      got := GetLine(got.from, '\n', got.text);
    }
    r := Success(got.from);
  }

  method ReadBody(from: Stream) returns (messageBody: string)
    ensures messageBody == Body(from)
  {
    messageBody := [];
    var got := GetLine(from, '\n', []);
    BodyIsPending(from);
    hide Lines, GetLine, Body;
    while !got.from.fail
      invariant !got.from.fail && got.from.eof ==> got.from.rest == []
      invariant messageBody + Unlines(Pending(got)) == Body(from)
      decreases if got.from.fail then 0 else 1 + |got.from.rest|
    {
      PendingStep(got);
      UnlinesCons(messageBody, got.text, Pending(GetLine(got.from, '\n', got.text)));
      messageBody := messageBody + got.text + ['\n'];
      got := GetLine(got.from, '\n', got.text);
    }
  }

  lemma BodyIsPending(from: Stream)
    ensures Unlines(Pending(GetLine(from, '\n', []))) == Body(from)
  {
    if from.Good() {
      PendingAtOpen(from.rest, []);
      assert from == Open(from.rest);
    }
  }

  lemma UnlinesCons(before: string, l: string, ls: seq<string>)
    ensures before + Unlines([l] + ls) == before + l + ['\n'] + Unlines(ls)
  {
    Cons(l, ls);
    Assoc(before, l + ['\n'], Unlines(ls));
    Assoc(before, l, ['\n']);
  }
}
