/**
 Whole usb.ids files, with comments, blank lines, carriage returns and sections of other kinds, and
 exactly which lines and files are refused.
 */
module UsbFiles {
  import opened Text
  import opened UsbIds
  import opened UsbIdsTheorems

  // ----- comments -----

  /** A blank line or one that starts with a number sign. */
  predicate Comment(line: string) { line == "" || line[0] == '#' }

  /** The lines that are not comments. */
  function Kept(lines: seq<string>): seq<string>
  {
    if lines == [] then []
    else
      var line := lines[|lines| - 1];
      Kept(lines[..|lines| - 1]) + if Comment(line) then [] else [line]
  }

  /** Comments change nothing, wherever they stand and whatever surrounds them. */
  lemma {:induction false} CommentsIgnored(st: State, lines: seq<string>)
    requires st.Valid()
    ensures FeedAll(st, lines) == FeedAll(st, Kept(lines))
  {
    if lines != [] {
      var init, line := lines[..|lines| - 1], lines[|lines| - 1];
      CommentsIgnored(st, init);
      assert lines == init + [line];
      FeedAllNext(st, init, line);
      if Comment(line) {
        CommentFed(st, init, line);
      } else {
        KeptNext(init, line);
        FeedAllNext(st, Kept(init), line);
      }
    }
  }

  lemma KeptNext(lines: seq<string>, line: string)
    requires !Comment(line)
    ensures Kept(lines + [line]) == Kept(lines) + [line]
  {
    assert (lines + [line])[..|lines|] == lines;
  }

  lemma CommentFed(st: State, lines: seq<string>, line: string)
    requires st.Valid() && Comment(line)
    ensures FeedAll(st, lines + [line]) == FeedAll(st, lines) && Kept(lines + [line]) == Kept(lines)
  {
    FeedAllNext(st, lines, line);
    assert (lines + [line])[..|lines|] == lines;
  }

  // ----- the parts of a line -----

  /** The parts of a line: tabs, perhaps a marker, digits, two spaces and a name. */
  predicate Parts(s: string, kind: string, r: Record, marker: string, digits: string)
  {
    && s == TabText(r.level) + (marker + digits) + "  " + r.name
    && (marker == kind + [' '] || (marker == "" && kind == ""))
    && ' ' !in kind && (kind != "" ==> kind[0] != '\t')
    && ParseUint16(digits) == Some(r.id)
  }

  lemma {:induction false} HexNumberDigits(s: string)
    requires HexNumber(s).Some?
    ensures forall c :: c in s ==> HexValue(c).Some?
  {
    if s != "" {
      HexNumberDigits(s[..|s| - 1]);
      assert s == s[..|s| - 1] + [s[|s| - 1]];
    }
  }

  lemma DigitsHaveNoSeparators(digits: string)
    requires ParseUint16(digits).Some?
    ensures digits != "" && ' ' !in digits && '\t' !in digits && '#' !in digits
  {
    HexNumberDigits(digits);
  }

  predicate NoGap(s: string) { forall i :: 0 <= i < |s| - 1 ==> !(s[i] == ' ' && s[i + 1] == ' ') }

  /** A marker and digits in front of a name are found there. */
  lemma PieceFound(kind: string, marker: string, digits: string)
    requires digits != "" && ' ' !in digits && '\t' !in digits
    requires marker == kind + [' '] || (marker == "" && kind == "")
    requires ' ' !in kind && (kind != "" ==> kind[0] != '\t')
    ensures var piece := marker + digits;
      piece != "" && piece[0] != '\t' && piece[|piece| - 1] != ' ' && NoGap(piece)
  {
    var piece, n := marker + digits, |marker|;
    forall i | 0 <= i < |piece| - 1 ensures !(piece[i] == ' ' && piece[i + 1] == ' ') {
      if i >= n {
        assert piece[i] == digits[i - n];
      } else if i + 1 < n {
        assert piece[i] == kind[i];
      } else {
        assert piece[i + 1] == digits[0];
      }
    }
    assert piece[|piece| - 1] == digits[|digits| - 1];
    assert piece[0] == if marker == "" then digits[0] else if kind == "" then ' ' else kind[0];
  }

  lemma PieceTaken(kind: string, marker: string, digits: string)
    requires ' ' !in digits && (marker == kind + [' '] || (marker == "" && kind == "")) && ' ' !in kind
    ensures var piece := marker + digits; var k := IndexOf(piece, ' ');
      && (if k < |piece| then piece[..k] else "") == kind
      && (if k < |piece| then piece[k + 1..] else piece) == digits
  {
    var piece := marker + digits;
    if marker == "" {
      assert piece == digits;
      NotFound(piece, ' ');
    } else {
      IndexOfAfter(kind, ' ', digits);
      assert piece == kind + [' '] + digits;
      assert piece[..|kind|] == kind && piece[|kind| + 1..] == digits;
    }
  }

  lemma NotFound(s: string, c: char)
    requires c !in s
    ensures IndexOf(s, c) == |s|
  {
  }

  lemma FromParts(kind: string, r: Record, marker: string, digits: string)
    requires ParseUint16(digits) == Some(r.id) && ' ' !in kind
    requires marker == kind + [' '] || (marker == "" && kind == "")
    ensures FromPiece(r.level, marker + digits, r.name) == Ok((kind, r))
  {
    DigitsHaveNoSeparators(digits);
    PieceTaken(kind, marker, digits);
  }

  lemma PartsSplit(s: string, kind: string, r: Record, marker: string, digits: string)
    requires Parts(s, kind, r, marker, digits)
    ensures SplitLine(s) == Ok((kind, r))
  {
    DigitsHaveNoSeparators(digits);
    PieceFound(kind, marker, digits);
    SplitParts(r.level, marker + digits, r.name);
    FromParts(kind, r, marker, digits);
  }

  // ----- lines of other kinds -----

  /** A line of another kind, own or inherited, is dropped: it only sets the kind. */
  lemma OtherKindDropped(st: State, line: string)
    requires st.Valid() && !Comment(line) && SplitLine(line).Ok?
    requires var own := SplitLine(line).value.0;
      var kind := if own == "" then st.kind else own; kind != "" && kind != "C"
    ensures var own := SplitLine(line).value.0;
      Feed(st, line) == Ok(State(if own == "" then st.kind else own, st.vendors, st.classes))
  {
  }

  /** A class line under another identifier with the same low byte. */
  ghost predicate SameLowByte(r: Record, r': Record)
  {
    r'.level == r.level && r'.name == r.name && r'.id % 0x100 == r.id % 0x100
  }

  /** Of a class identifier only the low byte counts. */
  lemma LowByteCounts(st: State, line: string, line': string)
    requires st.Valid() && !Comment(line) && !Comment(line') && SplitLine(line).Ok? && SplitLine(line').Ok?
    requires SplitLine(line).value.0 == SplitLine(line').value.0
    requires SplitLine(line).value.0 == "C" || (SplitLine(line).value.0 == "" && st.kind == "C")
    requires SameLowByte(SplitLine(line).value.1, SplitLine(line').value.1)
    ensures Feed(st, line) == Feed(st, line')
  {
    var r, r' := SplitLine(line).value.1, SplitLine(line').value.1;
    assert r.(id := r.id % 256) == r'.(id := r'.id % 256);
  }

  /** A line of a section of another kind; `kind` is "" on a line that inherits it. */
  datatype Other = Other(level: nat, kind: string, digits: string, name: string)
  {
    predicate Proper()
    {
      && ParseUint16(digits).Some? && ' ' !in kind && kind != "C"
      && (kind != "" ==> kind[0] != '\t' && kind[0] != '#')
    }

    function Marker(): string { if kind == "" then "" else kind + [' '] }

    function Text(): string { TabText(level) + (Marker() + digits) + "  " + name }
  }

  function PrintOthers(os: seq<Other>): seq<string>
  {
    seq(|os|, i requires 0 <= i < |os| => os[i].Text())
  }

  lemma SplitOther(o: Other)
    requires o.Proper()
    ensures !Comment(o.Text())
    ensures SplitLine(o.Text()) == Ok((o.kind, Record(o.level, ParseUint16(o.digits).value, o.name)))
  {
    DigitsHaveNoSeparators(o.digits);
    assert o.digits[0] in o.digits;
    assert o.Text()[0] == if o.level > 0 then '\t' else if o.kind == "" then o.digits[0] else o.kind[0];
    PartsSplit(o.Text(), o.kind, Record(o.level, ParseUint16(o.digits).value, o.name), o.Marker(), o.digits);
  }

  /** A section of other kinds starts with a kind of its own. */
  ghost predicate Section(os: seq<Other>)
  {
    (forall i :: 0 <= i < |os| ==> os[i].Proper()) && (os != [] ==> os[0].kind != "")
  }

  lemma {:induction false} SectionDropped(st: State, os: seq<Other>)
    requires st.Valid() && Section(os)
    ensures var res := FeedAll(st, PrintOthers(os));
      && res.Ok? && res.value.vendors == st.vendors && res.value.classes == st.classes
      && (os != [] ==> res.value.kind != "" && res.value.kind != "C")
  {
    if os != [] {
      var init, o := os[..|os| - 1], os[|os| - 1];
      SectionLast(os);
      SectionDropped(st, init);
      FeedAllNext(st, PrintOthers(init), o.Text());
      OtherDropped(FeedAll(st, PrintOthers(init)).value, o);
    }
  }

  lemma SectionLast(os: seq<Other>)
    requires Section(os) && os != []
    ensures var init, o := os[..|os| - 1], os[|os| - 1];
      && Section(init) && o.Proper() && (init == [] ==> o.kind != "")
      && PrintOthers(os) == PrintOthers(init) + [o.Text()]
  {
    var init := os[..|os| - 1];
    assert forall i :: 0 <= i < |init| ==> init[i] == os[i];
  }

  lemma OtherDropped(st: State, o: Other)
    requires st.Valid() && o.Proper() && (o.kind == "" ==> st.kind != "" && st.kind != "C")
    ensures Feed(st, o.Text()) == Ok(st.(kind := if o.kind == "" then st.kind else o.kind))
  {
    SplitOther(o);
    OtherKindDropped(st, o.Text());
  }

  // ----- whole files -----

  /**
   For every list of vendor trees, then class trees, then sections of other kinds, printed with any
   comments in between and any carriage returns, parsing gives back exactly those trees.
   */
  lemma FileRoundTrip(vendors: seq<Root>, classes: seq<Root>, others: seq<Other>, raw: seq<string>)
    requires PrintableFile(vendors, classes) && Section(others)
    requires forall i :: 0 <= i < |raw| ==> '\n' !in raw[i] && |raw[i]| < 512
    requires Kept(ChompAll(raw)) ==
      PrintAll(RootRecords(vendors), false) + PrintAll(RootRecords(classes), true) + PrintOthers(others)
    ensures var res := ParseText(State("", EMPTY, EMPTY), FileText(raw));
      && res.Ok?
      && Resolve(res.value.vendors) == RootMap(vendors)
      && Resolve(res.value.classes) == RootMap(classes)
  {
    var st := State("", EMPTY, EMPTY);
    var trees := PrintAll(RootRecords(vendors), false) + PrintAll(RootRecords(classes), true);
    ReadLinesThen(st, raw, "");
    assert FileText(raw) + "" == FileText(raw);
    CommentsIgnored(st, ChompAll(raw));
    TreesRead(vendors, classes);
    FeedAllAppend(st, trees, PrintOthers(others));
    SectionDropped(FeedAll(st, trees).value, others);
  }

  lemma TreesRead(vendors: seq<Root>, classes: seq<Root>)
    requires PrintableFile(vendors, classes)
    ensures var res := FeedAll(State("", EMPTY, EMPTY),
                               PrintAll(RootRecords(vendors), false) + PrintAll(RootRecords(classes), true));
      && res.Ok?
      && Resolve(res.value.vendors) == RootMap(vendors)
      && Resolve(res.value.classes) == RootMap(classes)
  {
    RoundTrip(vendors, classes);
    FileIsReadable(RootRecords(vendors), RootRecords(classes));
    ReadFile(State("", EMPTY, EMPTY),
             PrintAll(RootRecords(vendors), false) + PrintAll(RootRecords(classes), true));
  }

  /** A last line needs no line feed; without one it keeps a carriage return. */
  lemma LastLineRead(st: State, lines: seq<string>, last: string)
    requires st.Valid() && forall i :: 0 <= i < |lines| ==> FitsReader(lines[i])
    requires last != "" && FitsReader(last)
    ensures ParseText(st, FileText(lines) + last) == FeedAll(st, ChompAll(lines) + [last])
  {
    ReadLinesThen(st, lines, last);
    FeedAllNext(st, ChompAll(lines), last);
    if FeedAll(st, ChompAll(lines)).Ok? {
      var st1 := FeedAll(st, ChompAll(lines)).value;
      NotFound(last, '\n');
      assert ReadLine(last) == Ok((last, ""));
      assert ParseText(st1, last) == Feed(st1, last);
    }
  }

  /** A line of 512 characters or more is an error, if no line before it is. */
  lemma LongLineFails(st: State, lines: seq<string>, long: string, rest: string)
    requires st.Valid() && forall i :: 0 <= i < |lines| ==> FitsReader(lines[i])
    requires FeedAll(st, ChompAll(lines)).Ok? && '\n' !in long && |long| >= 512
    ensures ParseText(st, FileText(lines) + (long + rest)) == Err(LineTooLong)
  {
    ReadLinesThen(st, lines, long + rest);
    var text := long + rest;
    var i := IndexOf(text, '\n');
    assert forall j :: 0 <= j < |long| ==> text[j] == long[j];
    assert i >= |long|;
  }

  // ----- which lines are refused -----

  /** A text is its leading tabs and what follows, which does not start with one. */
  lemma {:induction false} AfterTabs(s: string)
    ensures var n := Tabs(s); s == TabText(n) + s[n..] && (n < |s| ==> s[n] != '\t')
  {
    var n := Tabs(s);
    if n > 0 {
      AfterTabs(s[1..]);
      assert s[1..][n - 1..] == s[n..];
      assert TabText(n) == ['\t'] + TabText(n - 1);
      assert s == ['\t'] + s[1..];
    }
  }

  lemma SplitHasParts(s: string) returns (marker: string, digits: string)
    requires SplitLine(s).Ok?
    ensures Parts(s, SplitLine(s).value.0, SplitLine(s).value.1, marker, digits)
  {
    var i := DoubleSpace(s);
    var level := Tabs(s[..i]);
    var piece, name := s[..i][level..], s[i + 2..];
    PieceOfLine(s);
    marker, digits := TakePiece(level, piece, name);
  }

  /** Tabs, then a piece that does not start with one, two spaces and a name. */
  lemma PieceOfLine(s: string)
    requires DoubleSpace(s) < |s|
    ensures var i := DoubleSpace(s); var level := Tabs(s[..i]); var piece := s[..i][level..];
      s == TabText(level) + piece + "  " + s[i + 2..] && (piece != "" ==> piece[0] != '\t')
  {
    var i := DoubleSpace(s);
    AfterTabs(s[..i]);
    HeadAndName(s, i);
  }

  lemma TakePiece(level: nat, rest: string, name: string) returns (marker: string, digits: string)
    requires FromPiece(level, rest, name).Ok?
    ensures var (kind, r) := FromPiece(level, rest, name).value;
      && marker + digits == rest && (marker == kind + [' '] || (marker == "" && kind == "")) && ' ' !in kind
      && ParseUint16(digits) == Some(r.id) && (kind != "" ==> kind[0] == rest[0])
  {
    var k := IndexOf(rest, ' ');
    if k < |rest| {
      marker, digits := rest[..k] + [' '], rest[k + 1..];
    } else {
      marker, digits := "", rest;
    }
  }

  lemma HeadAndName(s: string, i: nat)
    requires i + 1 < |s| && s[i] == ' ' && s[i + 1] == ' '
    ensures s == s[..i] + "  " + s[i + 2..]
  {
  }

  /** A line is split into a kind and a record if and only if it has those parts. */
  lemma SplitExactly(s: string, kind: string, r: Record)
    ensures SplitLine(s) == Ok((kind, r)) <==> exists marker, digits :: Parts(s, kind, r, marker, digits)
  {
    if SplitLine(s) == Ok((kind, r)) {
      var marker, digits := SplitHasParts(s);
    } else if exists marker, digits :: Parts(s, kind, r, marker, digits) {
      var marker, digits :| Parts(s, kind, r, marker, digits);
      PartsSplit(s, kind, r, marker, digits);
    }
  }

  /** Two adjacent spaces. */
  predicate HasGap(s: string) { exists i :: 0 <= i < |s| - 1 && s[i] == ' ' && s[i + 1] == ' ' }

  lemma {:induction false} DoubleSpaceExactly(s: string)
    ensures DoubleSpace(s) < |s| <==> HasGap(s)
  {
    if |s| >= 2 && !(s[0] == ' ' && s[1] == ' ') {
      DoubleSpaceExactly(s[1..]);
      if HasGap(s) {
        var i :| 0 <= i < |s| - 1 && s[i] == ' ' && s[i + 1] == ' ';
        assert s[1..][i - 1] == ' ' && s[1..][i] == ' ';
      }
      if HasGap(s[1..]) {
        var i :| 0 <= i < |s| - 2 && s[1..][i] == ' ' && s[1..][i + 1] == ' ';
        assert s[i + 1] == ' ' && s[i + 2] == ' ';
      }
    }
  }

  /** Which error a line that cannot be split gives. */
  lemma SplitErrorExactly(s: string)
    requires SplitLine(s).Err?
    ensures SplitLine(s).error == if HasGap(s) then MalformedId else MalformedLine
  {
    DoubleSpaceExactly(s);
  }

  // ----- numbers -----

  function Lower(s: string): string
  {
    seq(|s|, i requires 0 <= i < |s| => if 'A' <= s[i] <= 'F' then s[i] - 'A' + 'a' else s[i])
  }

  lemma DigitExactly(c: char, d: nat)
    requires d < 16
    ensures HexValue(c) == Some(d) <==> Lower([c]) == [HEX[d]]
  {
    assert Lower([c])[0] == if 'A' <= c <= 'F' then c - 'A' + 'a' else c;
    assert Lower([c]) == [HEX[d]] <==> Lower([c])[0] == HEX[d];
  }

  lemma LowerLast(s: string)
    requires s != ""
    ensures Lower(s) == Lower(s[..|s| - 1]) + Lower([s[|s| - 1]])
  {
  }

  /** Digits in either case are read as the number that is printed with them. */
  lemma {:induction false} HexNumberExactly(s: string, n: nat)
    ensures HexNumber(s) == Some(n) <==> n < Pow16(|s|) && Lower(s) == HexWidth(n, |s|)
  {
    if s != "" {
      var init, c := s[..|s| - 1], s[|s| - 1];
      HexNumberExactly(init, n / 16);
      DigitExactly(c, n % 16);
      LowerLast(s);
      SameHalves(Lower(init), Lower([c]), HexWidth(n / 16, |init|), [HEX[n % 16]]);
      HexStep(init, c, n);
    }
  }

  lemma SameHalves(a: string, b: string, c: string, d: string)
    requires |a| == |c|
    ensures a + b == c + d <==> a == c && b == d
  {
    assert (a + b)[..|a|] == a && (c + d)[..|a|] == c;
    assert (a + b)[|a|..] == b && (c + d)[|a|..] == d;
  }

  lemma HexStep(init: string, c: char, n: nat)
    ensures HexNumber(init + [c]) == Some(n) <==> HexNumber(init) == Some(n / 16) && HexValue(c) == Some(n % 16)
  {
    var s := init + [c];
    assert s[..|init|] == init;
  }

  // ----- which files have missing parents -----

  /** Every record has a parent: a line of the level above somewhere before it. */
  ghost predicate Parented(rs: seq<Record>)
  {
    forall i :: 0 <= i < |rs| ==>
      rs[i].level <= 2 && (rs[i].level > 0 ==> exists j :: 0 <= j < i && rs[j].level == rs[i].level - 1)
  }

  ghost predicate HasLevel(rs: seq<Record>, level: nat) { exists j :: 0 <= j < |rs| && rs[j].level == level }

  lemma HasLevelNext(rs: seq<Record>, r: Record, level: nat)
    ensures HasLevel(rs + [r], level) <==> HasLevel(rs, level) || r.level == level
  {
    var next := rs + [r];
    assert next[|rs|] == r;
    assert forall j :: 0 <= j < |rs| ==> next[j] == rs[j];
  }

  lemma ParentedNext(rs: seq<Record>, r: Record)
    ensures Parented(rs + [r]) <==>
      Parented(rs) && r.level <= 2 && (r.level > 0 ==> HasLevel(rs, r.level - 1))
  {
    var next := rs + [r];
    assert next[|rs|] == r;
    assert forall j :: 0 <= j < |rs| ==> next[j] == rs[j];
    if Parented(next) {
      forall i | 0 <= i < |rs| ensures rs[i].level <= 2
        && (rs[i].level > 0 ==> exists j :: 0 <= j < i && rs[j].level == rs[i].level - 1)
      {
        assert next[i] == rs[i];
      }
    }
  }

  /** Records can be inserted if and only if each has a parent; the first without one is the error. */
  lemma {:induction false} InsertedExactly(rs: seq<Record>)
    ensures InsertAll(EMPTY, rs).Ok? <==> Parented(rs)
    ensures InsertAll(EMPTY, rs).Ok? ==>
      var f := InsertAll(EMPTY, rs).value; (f.top.Some? <==> HasLevel(rs, 0)) && (f.mid.Some? <==> HasLevel(rs, 1))
  {
    if rs != [] {
      var init, r := rs[..|rs| - 1], rs[|rs| - 1];
      assert rs == init + [r];
      InsertedExactly(init);
      InsertAllNext(EMPTY, init, r);
      ParentedNext(init, r);
      HasLevelNext(init, r, 0);
      HasLevelNext(init, r, 1);
    }
  }

  /** Which error it is. */
  lemma InsertErrorExactly(f: Forest, r: Record)
    requires f.Valid() && Insert(f, r).Err?
    ensures Insert(f, r).error == if r.level > 2 then TooDeep else NoParent
  {
  }
}
