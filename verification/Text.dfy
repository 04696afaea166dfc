/** The string functions the repository uses; a char stands for one byte. */
module Text {
  import opened Wrappers

  function Lower(c: char): char {
    if 'A' <= c <= 'Z' then c - 'A' + 'a' else c
  }

  /** strings.ToLower, on ASCII. */
  function ToLower(s: string): (r: string)
    ensures |r| == |s|
  {
    seq(|s|, i requires 0 <= i < |s| => Lower(s[i]))
  }

  predicate SameLetter(c: char, d: char) {
    || c == d
    || ('A' <= c <= 'Z' && d as nat == c as nat + 32)
    || ('A' <= d <= 'Z' && c as nat == d as nat + 32)
  }

  function StripDot(s: string): string {
    if s != "" && s[|s| - 1] == '.' then s[..|s| - 1] else s
  }

  /** The same up to case and one final dot. */
  predicate SameName(x: string, y: string) {
    var a, b := StripDot(x), StripDot(y);
    |a| == |b| && forall i | 0 <= i < |a| :: SameLetter(a[i], b[i])
  }

  /** f is s without its final dot, each letter in lower case. */
  predicate IsFolded(f: string, s: string) {
    var a := StripDot(s);
    |f| == |a| && forall i | 0 <= i < |a| :: !('A' <= f[i] <= 'Z') && SameLetter(f[i], a[i])
  }

  predicate HasPrefix(s: string, prefix: string) {
    |prefix| <= |s| && s[..|prefix|] == prefix
  }

  predicate HasSuffix(s: string, suffix: string) {
    |suffix| <= |s| && s[|s| - |suffix|..] == suffix
  }

  lemma SuffixOfConcat(a: string, b: string)
    ensures HasSuffix(a + b, b) && (a + b)[..|a|] == a
  {
  }

  function TrimSuffix(s: string, suffix: string): string {
    if HasSuffix(s, suffix) then s[..|s| - |suffix|] else s
  }

  function TrimLeft(s: string, cut: set<char>): string {
    if s != "" && s[0] in cut then TrimLeft(s[1..], cut) else s
  }

  function TrimRight(s: string, cut: set<char>): string {
    if s != "" && s[|s| - 1] in cut then TrimRight(s[..|s| - 1], cut) else s
  }

  function Trim(s: string, cut: set<char>): string {
    TrimRight(TrimLeft(s, cut), cut)
  }

  // ---- searching and splitting at a separator ----

  /** The first position of c in s, or |s|. */
  function IndexOf(s: string, c: char): (i: nat)
    ensures i <= |s| && c !in s[..i]
    ensures i < |s| ==> s[i] == c
    ensures i == |s| <==> c !in s
  {
    if s == "" || s[0] == c then 0 else 1 + IndexOf(s[1..], c)
  }

  lemma IndexOfFirst(s: string, c: char, i: nat)
    requires i < |s| && s[i] == c && c !in s[..i]
    ensures IndexOf(s, c) == i
  {
    hide IndexOf;
    var k := IndexOf(s, c);
  }

  datatype Halves = Halves(before: string, after: string, found: bool)

  /** strings.Cut at a one-byte separator. */
  function Cut(s: string, sep: char): Halves {
    var i := IndexOf(s, sep);
    if i < |s| then Halves(s[..i], s[i + 1..], true) else Halves(s, "", false)
  }

  function Count(s: string, c: char): nat {
    if s == "" then 0 else (if s[0] == c then 1 else 0) + Count(s[1..], c)
  }

  /** strings.Split at a one-byte separator: never empty. */
  function Split(s: string, sep: char): (parts: seq<string>)
    ensures |parts| > 0
    decreases |s|
  {
    var i := IndexOf(s, sep);
    if i < |s| then [s[..i]] + Split(s[i + 1..], sep) else [s]
  }

  function Join(parts: seq<string>, sep: char): string
    requires |parts| > 0
  {
    if |parts| == 1 then parts[0] else parts[0] + [sep] + Join(parts[1..], sep)
  }

  lemma SplitFirst(a: string, sep: char, b: string)
    requires sep !in a
    ensures Split(a + [sep] + b, sep) == [a] + Split(b, sep)
  {
    var s := a + [sep] + b;
    assert s[..|a|] == a && s[|a| + 1..] == b;
    IndexOfFirst(s, sep, |a|);
  }

  lemma SplitWhole(s: string, sep: char)
    requires sep !in s
    ensures Split(s, sep) == [s]
  {
  }

  lemma {:induction false} JoinSplit(s: string, sep: char)
    ensures Join(Split(s, sep), sep) == s
    decreases |s|
  {
    hide Split;
    var i := IndexOf(s, sep);
    if i < |s| {
      var first, rest := s[..i], s[i + 1..];
      assert s == first + [sep] + rest;
      SplitFirst(first, sep, rest);
      JoinSplit(rest, sep);
      assert ([first] + Split(rest, sep))[1..] == Split(rest, sep);
    } else {
      SplitWhole(s, sep);
    }
  }

  lemma {:induction false} SplitAround(a: string, sep: char, b: string)
    ensures Split(a + [sep] + b, sep) == Split(a, sep) + Split(b, sep)
    decreases |a|
  {
    hide Split;
    var i := IndexOf(a, sep);
    if i < |a| {
      var first, rest := a[..i], a[i + 1..];
      assert a == first + [sep] + rest;
      SplitFirst(first, sep, rest);
      assert a + [sep] + b == first + [sep] + (rest + [sep] + b);
      SplitFirst(first, sep, rest + [sep] + b);
      SplitAround(rest, sep, b);
    } else {
      SplitWhole(a, sep);
      SplitFirst(a, sep, b);
    }
  }

  lemma {:induction false} JoinAround(a: seq<string>, sep: char, b: seq<string>)
    requires |a| > 0 && |b| > 0
    ensures Join(a + b, sep) == Join(a, sep) + [sep] + Join(b, sep)
  {
    if |a| == 1 {
      assert (a + b)[1..] == b;
    } else {
      JoinAround(a[1..], sep, b);
      assert (a + b)[1..] == a[1..] + b;
    }
  }

  lemma {:induction false} SplitJoin(parts: seq<string>, sep: char)
    requires |parts| > 0 && forall i | 0 <= i < |parts| :: sep !in parts[i]
    ensures Split(Join(parts, sep), sep) == parts
  {
    hide Split;
    if |parts| == 1 {
      SplitWhole(parts[0], sep);
    } else {
      SplitFirst(parts[0], sep, Join(parts[1..], sep));
      SplitJoin(parts[1..], sep);
    }
  }

  lemma {:induction false} CountIsSplits(s: string, sep: char)
    ensures |Split(s, sep)| == Count(s, sep) + 1
    decreases |s|
  {
    hide Split, Count;
    var i := IndexOf(s, sep);
    CountNone(s[..i], sep);
    if i < |s| {
      var first, rest := s[..i], s[i + 1..];
      assert s == first + [sep] + rest;
      SplitFirst(first, sep, rest);
      CountIsSplits(rest, sep);
      CountAround(first, [sep] + rest, sep);
      assert first + ([sep] + rest) == s;
      CountFirst(sep, rest);
    } else {
      assert s[..i] == s;
      SplitWhole(s, sep);
    }
  }

  lemma CountFirst(c: char, rest: string)
    ensures Count([c] + rest, c) == 1 + Count(rest, c)
  {
    assert ([c] + rest)[1..] == rest;
  }

  lemma {:induction false} CountNone(s: string, c: char)
    requires c !in s
    ensures Count(s, c) == 0
  {
    if s != "" {
      assert s[0] != c;
      CountNone(s[1..], c);
    }
  }

  lemma {:induction false} CountAround(a: string, b: string, c: char)
    ensures Count(a + b, c) == Count(a, c) + Count(b, c)
  {
    if a == "" {
      assert a + b == b;
    } else {
      CountAround(a[1..], b, c);
      assert (a + b)[1..] == a[1..] + b;
    }
  }

  // ---- decimal numbers ----

  predicate IsDigit(c: char) {
    '0' <= c <= '9'
  }

  predicate AllDigits(s: string) {
    forall i | 0 <= i < |s| :: IsDigit(s[i])
  }

  function DigitValue(s: string): nat
    requires AllDigits(s)
  {
    if s == "" then 0
    else
      assert IsDigit(s[|s| - 1]);
      DigitValue(s[..|s| - 1]) * 10 + (s[|s| - 1] - '0') as nat
  }

  /** strconv.ParseUint(s, 10, 16): digits only, at least one, below 2^16; leading zeros are fine. */
  function ParseUint16(s: string): Option<nat> {
    if s != "" && AllDigits(s) && DigitValue(s) < 0x1_0000
    then Some(DigitValue(s)) else None
  }

  /** The policy's and the listener's reading of a port: a nonzero 16-bit number. */
  function ParsePort(s: string): (port: Option<nat>)
    ensures port.Some? ==> 1 <= port.value < 0x1_0000
  {
    match ParseUint16(s)
    case Some(n) => if n == 0 then None else Some(n)
    case None => None
  }

  function Decimal(n: nat): (s: string)
    ensures s != "" && AllDigits(s)
  {
    var last := ['0' + (n % 10) as char];
    if n < 10 then last else Decimal(n / 10) + last
  }

  lemma {:induction false} DecimalValue(n: nat)
    ensures DigitValue(Decimal(n)) == n
  {
    if n >= 10 {
      DecimalValue(n / 10);
      assert Decimal(n)[..|Decimal(n)| - 1] == Decimal(n / 10);
    }
  }

  /** Printing a port and reading it back; only real ports come back. */
  lemma DecimalPort(n: nat)
    ensures ParsePort(Decimal(n)) == if 1 <= n < 0x1_0000 then Some(n) else None
  {
    DecimalValue(n);
  }

  predicate NumberText(text: string) {
    text != "" && AllDigits(text)
  }

  predicate PortText(text: string) {
    NumberText(text) && 1 <= DigitValue(text) <= 65535
  }

  lemma PortTextsParse(text: string)
    ensures ParsePort(text) == if PortText(text) then Some(DigitValue(text)) else None
  {
  }
}
