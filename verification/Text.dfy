/**
 The string functions of Go's `strings` and `fmt` packages that the controller relies on,
 over strings of single-byte characters, with the laws the other modules use.
 */
module Text {

  datatype Option<+T> = None | Some(value: T)

  /** Lines as a file: every line ends in a line feed. */
  function FileText(lines: seq<string>): string
  {
    if lines == [] then "" else lines[0] + ['\n'] + FileText(lines[1..])
  }

  lemma Assoc<T>(a: seq<T>, b: seq<T>, c: seq<T>)
    ensures a + (b + c) == (a + b) + c
  {
  }

  /** Position of the first `c` in `s`, or `|s|`. */
  function IndexOf(s: string, c: char): (i: nat)
    ensures i <= |s| && c !in s[..i]
    ensures i < |s| ==> s[i] == c
  {
    if s == "" || s[0] == c then 0
    else
      var i := 1 + IndexOf(s[1..], c);
      assert s[..i] == [s[0]] + s[1..][..i - 1];
      i
  }

  /** `strings.Split` for a one-character separator: never empty. */
  function SplitOn(s: string, c: char): (parts: seq<string>)
    ensures |parts| > 0
    decreases |s|
  {
    var i := IndexOf(s, c);
    if i == |s| then [s] else [s[..i]] + SplitOn(s[i + 1..], c)
  }

  /** `strings.Join` for a one-character separator. */
  function Join(parts: seq<string>, c: char): string
  {
    if |parts| == 0 then "" else if |parts| == 1 then parts[0] else parts[0] + [c] + Join(parts[1..], c)
  }

  lemma IndexOfAfter(p: string, c: char, rest: string)
    requires c !in p
    ensures IndexOf(p + [c] + rest, c) == |p|
  {
    var s := p + [c] + rest;
    var i := IndexOf(s, c);
    assert s[|p|] == c;
    assert forall j :: 0 <= j < |p| ==> s[j] == p[j];
    assert forall j :: 0 <= j < i ==> s[j] in s[..i];
  }

  lemma SplitOnFirst(p: string, c: char, rest: string)
    requires c !in p
    ensures SplitOn(p + [c] + rest, c) == [p] + SplitOn(rest, c)
  {
    IndexOfAfter(p, c, rest);
    var s := p + [c] + rest;
    assert s[..|p|] == p;
    assert s[|p| + 1..] == rest;
  }

  lemma SplitOnNone(s: string, c: char)
    requires c !in s
    ensures SplitOn(s, c) == [s]
  {
  }

  /** Splitting undoes joining when no part contains the separator. */
  lemma {:induction false} SplitOnJoin(parts: seq<string>, c: char)
    requires |parts| > 0
    requires forall i :: 0 <= i < |parts| ==> c !in parts[i]
    ensures SplitOn(Join(parts, c), c) == parts
  {
    if |parts| == 1 {
      SplitOnNone(parts[0], c);
    } else {
      SplitOnJoin(parts[1..], c);
      SplitOnFirst(parts[0], c, Join(parts[1..], c));
      assert parts == [parts[0]] + parts[1..];
    }
  }

  /** Joining undoes splitting. */
  lemma {:induction false} JoinSplitOn(s: string, c: char)
    ensures Join(SplitOn(s, c), c) == s
    decreases |s|
  {
    var i := IndexOf(s, c);
    if i < |s| {
      var head, rest := s[..i], s[i + 1..];
      Around(s, i);
      JoinSplitOn(rest, c);
      var parts := SplitOn(rest, c);
      JoinCons(head, parts, c);
      assert SplitOn(s, c) == [head] + parts;
    }
  }

  lemma Around(s: string, i: nat)
    requires i < |s|
    ensures s == s[..i] + [s[i]] + s[i + 1..]
  {
  }

  lemma JoinCons(part: string, rest: seq<string>, c: char)
    requires rest != []
    ensures Join([part] + rest, c) == part + [c] + Join(rest, c)
  {
    assert ([part] + rest)[1..] == rest;
  }

  /** The lines of a text; a last line without line feed counts if it is not empty. */
  function ContentLines(text: string): seq<string>
    decreases |text|
  {
    if text == "" then []
    else
      var i := IndexOf(text, '\n');
      if i == |text| then [text] else [text[..i]] + ContentLines(text[i + 1..])
  }

  predicate OneLine(s: string) { '\n' !in s }

  lemma {:induction false} ContentOfFileText(lines: seq<string>)
    requires forall i :: 0 <= i < |lines| ==> OneLine(lines[i])
    ensures ContentLines(FileText(lines)) == lines
  {
    if lines != [] {
      var line, rest := lines[0], FileText(lines[1..]);
      ContentOfFileText(lines[1..]);
      IndexOfAfter(line, '\n', rest);
      var text := line + ['\n'] + rest;
      assert text[..|line|] == line && text[|line| + 1..] == rest;
      assert lines == [line] + lines[1..];
    }
  }

  method ReadLines(text: string) returns (contents: seq<string>)
    ensures contents == ContentLines(text)
  {
    var rest := text;
    contents := [];
    while rest != ""
      invariant contents + ContentLines(rest) == ContentLines(text)
      decreases |rest|
    {
      var i := IndexOf(rest, '\n');
      if i == |rest| {
        contents, rest := contents + [rest], "";
      } else {
        contents, rest := contents + [rest[..i]], rest[i + 1..];
      }
    }
    assert contents + ContentLines("") == contents;
  }

  /** `strings.ReplaceAll`: leftmost, non-overlapping, one pass. */
  function ReplaceAll(s: string, old_: string, new_: string): string
    requires old_ != ""
    decreases |s|
  {
    if |s| < |old_| then s
    else if old_ <= s then new_ + ReplaceAll(s[|old_|..], old_, new_)
    else [s[0]] + ReplaceAll(s[1..], old_, new_)
  }

  /** `strings.Contains`. */
  predicate Contains(s: string, sub: string)
    decreases |s|
  {
    |sub| <= |s| && (sub <= s || (s != "" && Contains(s[1..], sub)))
  }

  lemma {:induction false} ReplaceCharAbsent(s: string, c: char, new_: string)
    requires c !in s
    ensures ReplaceAll(s, [c], new_) == s
  {
    if s != "" {
      ReplaceCharAbsent(s[1..], c, new_);
      assert s == [s[0]] + s[1..];
    }
  }

  lemma RemoveOnly(c: char)
    ensures ReplaceAll([c], [c], "") == ""
  {
    ReplaceCharCons([c], c, "");
    assert ReplaceAll("", [c], "") == "";
  }

  lemma ReplaceCharCons(s: string, c: char, new_: string)
    requires s != ""
    ensures ReplaceAll(s, [c], new_) == (if s[0] == c then new_ else [s[0]]) + ReplaceAll(s[1..], [c], new_)
  {
  }

  /** One-character replacement distributes over concatenation. */
  lemma {:induction false} ReplaceCharConcat(a: string, b: string, c: char, new_: string)
    ensures ReplaceAll(a + b, [c], new_) == ReplaceAll(a, [c], new_) + ReplaceAll(b, [c], new_)
  {
    if a == "" {
      assert a + b == b;
      assert ReplaceAll(a, [c], new_) == "";
    } else {
      var head := if a[0] == c then new_ else [a[0]];
      var ra, rb := ReplaceAll(a[1..], [c], new_), ReplaceAll(b, [c], new_);
      assert (a + b)[1..] == a[1..] + b;
      calc {
        ReplaceAll(a + b, [c], new_);
        { ReplaceCharCons(a + b, c, new_); }
        head + ReplaceAll(a[1..] + b, [c], new_);
        { ReplaceCharConcat(a[1..], b, c, new_); }
        head + (ra + rb);
        { Assoc(head, ra, rb); }
        (head + ra) + rb;
        { ReplaceCharCons(a, c, new_); }
        ReplaceAll(a, [c], new_) + rb;
      }
    }
  }

  /** `x + c + y` determines `x` and `y` when `y` does not contain `c`. */
  lemma LastSeparator(x1: string, y1: string, x2: string, y2: string, c: char)
    requires c !in y1 && c !in y2
    requires x1 + [c] + y1 == x2 + [c] + y2
    ensures x1 == x2 && y1 == y2
  {
    var s := x1 + [c] + y1;
    var t := x2 + [c] + y2;
    assert s[|x1|] == c && t[|x2|] == c;
    assert forall j :: |x1| < j < |s| ==> s[j] == y1[j - |x1| - 1];
    assert forall j :: |x2| < j < |t| ==> t[j] == y2[j - |x2| - 1];
    assert s[..|x1|] == x1 && t[..|x2|] == x2;
    assert s[|x1| + 1..] == y1 && t[|x2| + 1..] == y2;
  }

  const HEX := "0123456789abcdef"

  /** `fmt.Sprintf("%0wx", n)` for a number that fits in `w` digits. */
  function HexWidth(n: nat, w: nat): (s: string)
    ensures |s| == w
    ensures forall c :: c in s ==> c in HEX
  {
    if w == 0 then "" else HexWidth(n / 16, w - 1) + [HEX[n % 16]]
  }

  function Pow16(w: nat): nat
  {
    if w == 0 then 1 else 16 * Pow16(w - 1)
  }

  lemma Pow16Values()
    ensures Pow16(2) == 0x100 && Pow16(4) == 0x10000
  {
    assert Pow16(1) == 16 && Pow16(2) == 16 * Pow16(1);
    assert Pow16(3) == 16 * Pow16(2) && Pow16(4) == 16 * Pow16(3);
  }

  function HexValue(c: char): Option<nat>
  {
    if '0' <= c <= '9' then Some(c as nat - '0' as nat)
    else if 'a' <= c <= 'f' then Some(c as nat - 'a' as nat + 10)
    else if 'A' <= c <= 'F' then Some(c as nat - 'A' as nat + 10)
    else None
  }

  /** The value of a string of hexadecimal digits, or None. */
  function HexNumber(s: string): Option<nat>
  {
    if s == "" then Some(0)
    else
      var hi := HexNumber(s[..|s| - 1]);
      var lo := HexValue(s[|s| - 1]);
      if hi.Some? && lo.Some? then Some(16 * hi.value + lo.value) else None
  }

  lemma HexDigitValue(d: nat)
    requires d < 16
    ensures HexValue(HEX[d]) == Some(d)
  {
  }

  /** Parsing undoes printing. */
  lemma {:induction false} HexRoundTrip(n: nat, w: nat)
    requires n < Pow16(w)
    ensures HexNumber(HexWidth(n, w)) == Some(n)
  {
    if w > 0 {
      HexRoundTrip(n / 16, w - 1);
      HexDigitValue(n % 16);
      var hi, lo := HexWidth(n / 16, w - 1), HEX[n % 16];
      assert (hi + [lo])[..w - 1] == hi && (hi + [lo])[w - 1] == lo;
      assert n == 16 * (n / 16) + n % 16;
    }
  }

  /** Fixed-width hexadecimal text determines the number. */
  lemma HexInjective(m: nat, n: nat, w: nat)
    requires m < Pow16(w) && n < Pow16(w)
    requires HexWidth(m, w) == HexWidth(n, w)
    ensures m == n
  {
    HexRoundTrip(m, w);
    HexRoundTrip(n, w);
  }
}
