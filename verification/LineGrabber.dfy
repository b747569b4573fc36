/** `LineGrabber`: lines out of a buffer, through a local buffer of 1024 bytes. */
module LineGrabber {
  import opened Text

  const NUL: char := '\0'
  const CAPACITY: nat := 1024

  predicate EndsLine(c: char) {
    c == '\r' || c == '\n'
  }

  /** The bytes before the next carriage return or newline. */
  function LineLength(s: string): (k: nat)
    ensures k <= |s| && (forall i | 0 <= i < k :: !EndsLine(s[i])) && (k < |s| ==> EndsLine(s[k]))
  {
    if s == [] || EndsLine(s[0]) then 0 else 1 + LineLength(s[1..])
  }

  lemma LineLengthIs(s: string, k: nat)
    requires k <= |s| && (forall i | 0 <= i < k :: !EndsLine(s[i])) && (k < |s| ==> EndsLine(s[k]))
    ensures LineLength(s) == k
  {
  }

  /** `std::string(buffer)`: up to the first NUL. */
  function CString(s: string): string {
    s[..IndexOf(s, NUL)]
  }

  /** A carriage return is taken together with whatever byte is behind it. */
  function Skip(s: string, k: nat): nat
    requires k <= |s|
  {
    if k == |s| then k else if s[k] == '\r' then k + 2 else k + 1
  }

  /** What is left behind the first `n` bytes. */
  function Behind(s: string, n: nat): string {
    if n < |s| then s[n..] else []
  }

  lemma BehindTwice(s: string, i: nat, n: nat)
    ensures Behind(Behind(s, i), n) == Behind(s, i + n)
  {
  }

  /** The next line of what is unread, and how far the index moves. */
  function NextLine(unread: string): (string, nat) {
    var k := LineLength(unread);
    (CString(unread[..k]), Skip(unread, k))
  }

  lemma NextLineFrom(unread: string, k: nat)
    requires k == LineLength(unread)
    ensures NextLine(unread) == (CString(unread[..k]), Skip(unread, k))
    ensures unread == [] ==> NextLine(unread) == ([], 0)
  {
  }

  class LineGrabber {
    const buffer: array<char>
    var index: nat

    constructor (buffer: array<char>)
      ensures this.buffer == buffer && index == 0
    {
      this.buffer := buffer;
      index := 0;
    }

    /** What is unread; nothing when the index is at or past the end. */
    function Unread(): string
      reads this, buffer
    {
      Behind(buffer[..], index)
    }

    method IsEof() returns (eof: bool)
      ensures eof <==> Unread() == []
    {
      eof := index >= buffer.Length;
    }

    /** Lines of up to 1023 bytes fit the local buffer with a NUL behind them;
        longer ones run out of it, and are no legal use. */
    method GetNextLine() returns (line: string)
      requires LineLength(Unread()) < CAPACITY
      modifies this
      ensures (line, index) == (NextLine(old(Unread())).0, old(index) + NextLine(old(Unread())).1)
      ensures Unread() == Behind(old(Unread()), NextLine(old(Unread())).1)
    {
      hide CString, LineLength, IndexOf, Padded, NextLine;
      var local := new char[CAPACITY](_ => NUL);
      ghost var start, unread := index, Unread();
      NextLineFrom(unread, LineLength(unread));
      BehindTwice(buffer[..], index, NextLine(unread).1);
      if index >= buffer.Length {
        return [];
      }
      var length := 0;
      assert unread[..0] == [];
      PadStarts(local[..]);
      while index < buffer.Length
        invariant start <= index <= buffer.Length && index == start + length
        invariant length <= LineLength(unread) && Padded(local[..], unread[..length])
        decreases buffer.Length - index
      {
        if length > CAPACITY {
          return [];
        }
        assert unread[length] == buffer[index];
        if !EndsLine(buffer[index]) {
          PadGoesOn(local[..], unread, length);
          local[length] := buffer[index];
          index, length := index + 1, length + 1;
        } else if buffer[index] == '\r' {
          index := index + 2;
          break;
        } else {
          index := index + 1;
          break;
        }
      }
      line := CString(local[..]);
      PaddedCString(local[..], unread[..length]);
    }

    method GetContentTillEof() returns (content: string)
      requires |Unread()| < CAPACITY
      modifies this
      ensures content == CString(old(Unread()))
      ensures Unread() == []
    {
      var local := new char[CAPACITY](_ => NUL);
      if index >= buffer.Length {
        return [];
      }
      ghost var start := index;
      ghost var unread := Unread();
      var length := 0;
      assert unread[..0] == [];
      hide CString, IndexOf, Padded;
      PadStarts(local[..]);
      while index < buffer.Length
        invariant start <= index <= buffer.Length && index == start + length
        invariant Padded(local[..], unread[..length])
      {
        assert unread[length] == buffer[index];
        PadGoesOn(local[..], unread, length);
        local[length] := buffer[index];
        index, length := index + 1, length + 1;
      }
      content := CString(local[..]);
      assert unread[..length] == unread;
      PaddedCString(local[..], unread);
    }
  }

  /** A local buffer with `s` at its front and NULs behind. */
  ghost predicate Padded(local: seq<char>, s: string) {
    |s| <= |local| && local[..|s|] == s && forall i | |s| <= i < |local| :: local[i] == NUL
  }

  lemma PadStarts(local: seq<char>)
    requires forall i | 0 <= i < |local| :: local[i] == NUL
    ensures Padded(local, [])
  {
  }

  lemma PadGoesOn(local: seq<char>, s: string, k: nat)
    requires k < |s| && k < |local| && Padded(local, s[..k])
    ensures Padded(local[k := s[k]], s[..k + 1])
  {
    assert s[..k + 1] == s[..k] + [s[k]];
  }

  /** Reading back a NUL-padded buffer. */
  lemma PaddedCString(local: string, s: string)
    requires |s| < |local| && Padded(local, s)
    ensures CString(local) == CString(s)
  {
    var k := IndexOf(s, NUL);
    assert s[..k] == local[..k];
    IndexOfUnique(local, NUL, k);
  }

  lemma IndexOfUnique(s: string, c: char, k: nat)
    requires k < |s| && s[k] == c && c !in s[..k]
    ensures IndexOf(s, c) == k
  {
    forall i | 0 <= i < k
      ensures s[i] != c
    {
      assert s[..k][i] == s[i] && s[..k][i] in s[..k];
    }
    assert s == s[..k] + [c] + s[k + 1..];
    IndexOfIs(s[..k], c, s[k + 1..]);
  }

  // -------------------------------------------------- reading a whole buffer

  /** A carriage return ends a line together with the byte behind it, whichever
      that is. */
  datatype Ending = LF | CR(behind: char)

  datatype Line = Line(text: string, ending: Ending)

  predicate IsLineText(s: string) {
    forall c <- s :: !EndsLine(c)
  }

  function Close(e: Ending): string {
    match e
    case LF => ['\n']
    case CR(c) => ['\r', c]
  }

  /** What may stand behind the last whole line: an unfinished line, or one whose
      carriage return is the last byte of the buffer. */
  predicate IsLast(last: string) {
    IsLineText(WithoutReturn(last))
  }

  function WithoutReturn(last: string): string {
    if last != [] && last[|last| - 1] == '\r' then last[..|last| - 1] else last
  }

  /** A buffer of lines, the last of which may be unfinished. */
  function Render(lines: seq<Line>, last: string): string {
    if lines == [] then last else lines[0].text + Close(lines[0].ending) + Render(lines[1..], last)
  }

  /** Every buffer can be taken apart that way. */
  lemma {:induction false} EveryBufferIsRendered(s: string) returns (lines: seq<Line>, last: string)
    ensures (forall l <- lines :: IsLineText(l.text)) && IsLast(last) && Render(lines, last) == s
    decreases |s|
  {
    var k := LineLength(s);
    assert IsLineText(s[..k]);
    if k == |s| || (s[k] == '\r' && k + 1 == |s|) {
      assert WithoutReturn(s) == s[..k] by {
        assert s[..|s|] == s;
      }
      lines, last := [], s;
    } else {
      var e := if s[k] == '\n' then LF else CR(s[k + 1]);
      var rest := s[k + |Close(e)|..];
      lines, last := EveryBufferIsRendered(rest);
      assert s == s[..k] + Close(e) + rest;
      Cons(Line(s[..k], e), lines);
      lines := [Line(s[..k], e)] + lines;
    }
  }

  /** Calling `getNextLine` until `isEof`. */
  function ReadAll(unread: string): seq<string>
    decreases |unread|
  {
    if unread == [] then [] else
      var (line, n) := NextLine(unread);
      [line] + ReadAll(Behind(unread, n))
  }

  /** Every line fits the local buffer. */
  predicate FitsAll(unread: string)
    decreases |unread|
  {
    unread != [] ==>
      && LineLength(unread) < CAPACITY
      && FitsAll(Behind(unread, NextLine(unread).1))
  }

  /** The index at the start of each line and at the end: it moves at every call. */
  ghost predicate Advances(starts: seq<nat>, lines: nat, first: nat, last: nat) {
    && |starts| == lines + 1 && starts[0] == first && starts[lines] == last
    && forall i | 0 <= i < lines :: starts[i] < starts[i + 1]
  }

  lemma AdvancesOn(starts: seq<nat>, lines: nat, first: nat, last: nat, next: nat)
    requires Advances(starts, lines, first, last) && last < next
    ensures Advances(starts + [next], lines + 1, first, next)
  {
  }

  /** A client's loop: `getNextLine` until `isEof`. Every call moves the index. */
  method ReadLines(grabber: LineGrabber) returns (ls: seq<string>, ghost starts: seq<nat>)
    requires FitsAll(grabber.Unread())
    modifies grabber
    ensures ls == ReadAll(old(grabber.Unread()))
    ensures grabber.Unread() == []
    ensures Advances(starts, |ls|, old(grabber.index), grabber.index)
  {
    hide ReadAll, FitsAll, NextLine, LineLength, Advances, LineGrabber.Unread;
    ls, starts := [], [grabber.index];
    ghost var all := ReadAll(grabber.Unread());
    AdvancesStart(grabber.index);
    ReadNone();
    var eof := grabber.IsEof();
    while !eof
      invariant eof <==> grabber.Unread() == []
      invariant FitsAll(grabber.Unread())
      invariant ls + ReadAll(grabber.Unread()) == all
      invariant Advances(starts, |ls|, old(grabber.index), grabber.index)
      decreases |grabber.Unread()|
    {
      ghost var unread, index := grabber.Unread(), grabber.index;
      NextLineMoves(unread);
      ReadAllStep(ls, unread);
      var line := grabber.GetNextLine();
      AdvancesOn(starts, |ls|, old(grabber.index), index, grabber.index);
      ls, starts := ls + [line], starts + [grabber.index];
      eof := grabber.IsEof();
    }
  }

  lemma AdvancesStart(index: nat)
    ensures Advances([index], 0, index, index)
  {
  }

  lemma ReadNone()
    ensures ReadAll([]) == []
  {
  }

  lemma ReadAllStep(ls: seq<string>, unread: string)
    requires unread != []
    ensures var (line, n) := NextLine(unread);
            ls + [line] + ReadAll(Behind(unread, n)) == ls + ReadAll(unread)
    ensures FitsAll(unread) ==> LineLength(unread) < CAPACITY && FitsAll(Behind(unread, NextLine(unread).1))
  {
    var (line, n) := NextLine(unread);
    Assoc(ls, [line], ReadAll(Behind(unread, n)));
  }

  /** The texts, each up to its first NUL. */
  function Texts(lines: seq<Line>): seq<string> {
    if lines == [] then [] else [CString(lines[0].text)] + Texts(lines[1..])
  }

  function LastText(last: string): seq<string> {
    if last == [] then [] else [CString(WithoutReturn(last))]
  }

  lemma NextLineIs(text: string, close: Ending, rest: string)
    requires IsLineText(text)
    ensures NextLine(text + Close(close) + rest) == (CString(text), |text| + |Close(close)|)
    ensures LineLength(text + Close(close) + rest) == |text|
  {
    var s := text + Close(close) + rest;
    assert forall i | 0 <= i < |text| :: s[i] == text[i] && text[i] in text;
    LineLengthIs(s, |text|);
    assert s[..|text|] == text && s[|text|] == Close(close)[0];
  }

  lemma LastLineIs(last: string)
    requires IsLast(last) && last != []
    ensures NextLine(last).0 == CString(WithoutReturn(last)) && NextLine(last).1 >= |last|
    ensures LineLength(last) == |WithoutReturn(last)|
  {
    var text := WithoutReturn(last);
    assert forall i | 0 <= i < |text| :: last[i] == text[i] && text[i] in text;
    LineLengthIs(last, |text|);
    assert last[..|text|] == text;
  }

  lemma RenderStep(l: Line, rest: string)
    requires IsLineText(l.text)
    ensures var s := l.text + Close(l.ending) + rest;
            && s != []
            && ReadAll(s) == [CString(l.text)] + ReadAll(rest)
            && (FitsAll(s) <==> |l.text| < CAPACITY && FitsAll(rest))
  {
    NextLineIs(l.text, l.ending, rest);
    assert (l.text + Close(l.ending) + rest)[|l.text| + |Close(l.ending)|..] == rest;
    hide CString, LineLength;
  }

  lemma RenderEnd(last: string)
    requires IsLast(last)
    ensures ReadAll(last) == LastText(last)
    ensures FitsAll(last) <==> |WithoutReturn(last)| < CAPACITY
  {
    if last != [] {
      LastLineIs(last);
      ReadNone();
    }
  }

  /** Line by line the buffer gives back the lines it was made of, in order, an
      unfinished last one included, each up to its first NUL; and every line fits
      the local buffer exactly when it is no longer than 1023 bytes. */
  lemma {:induction false} ReadAllIsTexts(lines: seq<Line>, last: string)
    requires (forall l <- lines :: IsLineText(l.text)) && IsLast(last)
    ensures ReadAll(Render(lines, last)) == Texts(lines) + LastText(last)
    ensures FitsAll(Render(lines, last))
       <==> (forall l <- lines :: |l.text| <= 1023) && |WithoutReturn(last)| <= 1023
    ensures forall l <- lines :: NUL !in l.text ==> CString(l.text) == l.text
    decreases |lines|
  {
    hide ReadAll, FitsAll, CString, LastText, Close, WithoutReturn;
    if lines == [] {
      RenderEnd(last);
    } else {
      assert lines[0] in lines && forall l <- lines :: l == lines[0] || l in lines[1..];
      RenderStep(lines[0], Render(lines[1..], last));
      ReadAllIsTexts(lines[1..], last);
      Assoc([CString(lines[0].text)], Texts(lines[1..]), LastText(last));
      NoNul(lines[0].text);
    }
  }

  lemma NoNul(s: string)
    ensures NUL !in s ==> CString(s) == s
  {
    if NUL !in s {
      IndexOfIs(s, NUL, []);
      assert s[..|s|] == s;
    }
  }

  /** Every call on unread bytes moves the index forward, by the line and its end. */
  lemma NextLineMoves(unread: string)
    requires unread != []
    ensures 0 < NextLine(unread).1 <= |unread| + 1
  {
  }

  /** What is unread after the first `k` lines of a buffer. */
  function Rest(unread: string, k: nat): string
    decreases k
  {
    if k == 0 then unread
    else
      Rest(Behind(unread, NextLine(unread).1), k - 1)
  }

  /** After any number of lines, the content till the end is exactly the rest of
      the buffer, as rendered. */
  lemma {:induction false} RestIsRendered(lines: seq<Line>, last: string, k: nat)
    requires (forall l <- lines :: IsLineText(l.text)) && k <= |lines|
    ensures Rest(Render(lines, last), k) == Render(lines[k..], last)
    ensures NUL !in Render(lines[k..], last) ==>
              CString(Rest(Render(lines, last), k)) == Render(lines[k..], last)
    decreases |lines|
  {
    if k == 0 {
      assert lines[0..] == lines;
    } else {
      var l, rest := lines[0], Render(lines[1..], last);
      assert l in lines;
      NextLineIs(l.text, l.ending, rest);
      assert (l.text + Close(l.ending) + rest)[|l.text| + |Close(l.ending)|..] == rest;
      RestIsRendered(lines[1..], last, k - 1);
      assert lines[1..][k - 1..] == lines[k..];
    }
    NoNul(Render(lines[k..], last));
  }
}
