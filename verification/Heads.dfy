/** Text lines of a request head as the ingress reads them, and Go's byte-level trimming and folding. */
module Heads {
  import opened Text
  import opened Wrappers

  // ---- lines ----

  datatype Line = Line(text: string, rest: string)

  /** ReadString to a newline and dropping one "\n" and one "\r"; none when no newline comes. */
  function NextLine(s: string): (line: Option<Line>)
    ensures line.Some? ==> |line.value.rest| < |s|
  {
    var i := IndexOf(s, '\n');
    if i == |s| then None
    else Some(Line(TrimSuffix(TrimSuffix(s[..i + 1], "\n"), "\r"), s[i + 1..]))
  }

  /** A line as it can be written: its text, and whether a carriage return precedes the newline. */
  datatype RawLine = RawLine(text: string, cr: bool)
  {
    predicate Valid() {
      '\n' !in text && (cr || !HasSuffix(text, "\r"))
    }

    function Bytes(): string {
      text + if cr then "\r\n" else "\n"
    }
  }

  lemma NextLineOfBody(body: string, tail: string)
    requires '\n' !in body
    ensures NextLine(body + "\n" + tail) == Some(Line(TrimSuffix(body, "\r"), tail))
  {
    hide IndexOf;
    var s := body + "\n" + tail;
    assert s[..|body|] == body && s[|body| + 1..] == tail;
    IndexOfFirst(s, '\n', |body|);
    assert s[..|body| + 1] == body + "\n";
    SuffixOfConcat(body, "\n");
  }

  lemma NextLineOfBytes(line: RawLine, tail: string)
    requires line.Valid()
    ensures NextLine(line.Bytes() + tail) == Some(Line(line.text, tail))
  {
    hide NextLine;
    if line.cr {
      NextLineOfBody(line.text + "\r", tail);
      SuffixOfConcat(line.text, "\r");
      assert line.text + "\r" + "\n" + tail == line.Bytes() + tail;
    } else {
      NextLineOfBody(line.text, tail);
    }
  }

  lemma BytesOfNextLine(s: string) returns (line: RawLine)
    requires NextLine(s).Some?
    ensures line.Valid() && line.text == NextLine(s).value.text
    ensures s == line.Bytes() + NextLine(s).value.rest
  {
    hide IndexOf;
    var i := IndexOf(s, '\n');
    var body := s[..i];
    assert s[..i + 1] == body + "\n";
    SuffixOfConcat(body, "\n");
    line := RawLine(TrimSuffix(body, "\r"), HasSuffix(body, "\r"));
    if line.cr {
      assert body == line.text + "\r";
      assert s[..i + 1] == line.text + "\r\n";
    }
    assert line.Bytes() == s[..i + 1];
    assert s == s[..i + 1] + s[i + 1..];
  }

  function LinesBytes(lines: seq<RawLine>): string {
    if lines == [] then "" else lines[0].Bytes() + LinesBytes(lines[1..])
  }

  // ---- trimming ----

  /** The length of the white space character s starts with, in UTF-8, or 0. */
  function LeadingSpace(s: string): (n: nat)
    ensures n <= |s|
  {
    if s == "" then 0
    else if IsAsciiSpace(s[0]) then 1
    else if |s| >= 2 && IsSpace2(s[0], s[1]) then 2
    else if |s| >= 3 && IsSpace3(s[0], s[1], s[2]) then 3
    else 0
  }

  function TrailingSpace(s: string): (n: nat)
    ensures n <= |s|
  {
    if s == "" then 0
    else if IsAsciiSpace(s[|s| - 1]) then 1
    else if |s| >= 2 && IsSpace2(s[|s| - 2], s[|s| - 1]) then 2
    else if |s| >= 3 && IsSpace3(s[|s| - 3], s[|s| - 2], s[|s| - 1]) then 3
    else 0
  }

  predicate IsAsciiSpace(c: char) {
    c == ' ' || '\t' <= c <= '\r'
  }

  // The UTF-8 bytes of unicode.IsSpace above ASCII.

  predicate IsSpace2(a: char, b: char) {
    a == '\U{C2}' && (b == '\U{85}' || b == '\U{A0}')
  }

  predicate IsSpace3(a: char, b: char, c: char) {
    || (a == '\U{E1}' && b == '\U{9A}' && c == '\U{80}')
    || (a == '\U{E2}' && b == '\U{80}' && ('\U{80}' <= c <= '\U{8A}' || c in {'\U{A8}', '\U{A9}', '\U{AF}'}))
    || (a == '\U{E2}' && b == '\U{81}' && c == '\U{9F}')
    || (a == '\U{E3}' && b == '\U{80}' && c == '\U{80}')
  }

  function TrimSpaceLeft(s: string): string
    decreases |s|
  {
    var n := LeadingSpace(s);
    if n > 0 then TrimSpaceLeft(s[n..]) else s
  }

  function TrimSpaceRight(s: string): string
    decreases |s|
  {
    var n := TrailingSpace(s);
    if n > 0 then TrimSpaceRight(s[..|s| - n]) else s
  }

  /** strings.TrimSpace. */
  function TrimSpace(s: string): string {
    TrimSpaceRight(TrimSpaceLeft(s))
  }

  predicate Visible(c: char) {
    '!' <= c <= '~'
  }

  /** Padding of spaces and tabs around a text of visible ASCII is all that is trimmed. */
  lemma TrimPadding(before: string, text: string, after: string)
    requires forall i | 0 <= i < |before| :: before[i] == ' ' || before[i] == '\t'
    requires forall i | 0 <= i < |after| :: after[i] == ' ' || after[i] == '\t'
    requires text != "" && Visible(text[0]) && Visible(text[|text| - 1])
    ensures TrimSpace(before + text + after) == text
  {
    TrimBefore(before, text + after);
    assert before + text + after == before + (text + after);
    TrimAfter(text, after);
  }

  lemma {:induction false} TrimBefore(before: string, text: string)
    requires forall i | 0 <= i < |before| :: before[i] == ' ' || before[i] == '\t'
    requires text != "" && Visible(text[0])
    ensures TrimSpaceLeft(before + text) == text
  {
    if before != "" {
      assert (before + text)[1..] == before[1..] + text;
      TrimBefore(before[1..], text);
    } else {
      assert before + text == text;
    }
  }

  lemma {:induction false} TrimAfter(text: string, after: string)
    requires forall i | 0 <= i < |after| :: after[i] == ' ' || after[i] == '\t'
    requires text != "" && Visible(text[|text| - 1])
    ensures TrimSpaceRight(text + after) == text
  {
    if after != "" {
      assert (text + after)[..|text + after| - 1] == text + after[..|after| - 1];
      TrimAfter(text, after[..|after| - 1]);
    } else {
      assert text + after == text;
    }
  }

  // ---- folding ----

  /** strings.EqualFold(name, "Host"): the long s folds to s as well. */
  predicate IsHost(name: string) {
    || (|name| == 4 && ToLower(name) == "host")
    || (|name| == 5 && ToLower(name[..2]) == "ho" && name[2..4] == ['\U{C5}', '\U{BF}'] && Lower(name[4]) == 't')
  }

  /** The names that are the Host field's: its four letters in either case, or a long s in the place of the s. */
  lemma IsHostExactly(name: string)
    ensures IsHost(name) <==>
      || (|name| == 4 && name[0] in {'H', 'h'} && name[1] in {'O', 'o'} && name[2] in {'S', 's'} && name[3] in {'T', 't'})
      || (|name| == 5 && name[0] in {'H', 'h'} && name[1] in {'O', 'o'} && name[2] == '\U{C5}' && name[3] == '\U{BF}'
          && name[4] in {'T', 't'})
  {
    if |name| == 4 {
      assert ToLower(name) == [Lower(name[0]), Lower(name[1]), Lower(name[2]), Lower(name[3])];
    } else if |name| == 5 {
      assert ToLower(name[..2]) == [Lower(name[0]), Lower(name[1])];
      assert name[2..4] == [name[2], name[3]];
    }
  }
}
