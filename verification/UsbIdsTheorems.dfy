/**
 Printing and parsing usb.ids files: the round trip, and where a level-2 line goes.
 */
module UsbIdsTheorems {
  import opened Text
  import opened UsbIds

  // ----- trees as they are printed, in file order -----

  datatype Leaf = Leaf(id: nat, name: string)
  datatype Node = Node(id: nat, name: string, leaves: seq<Leaf>)
  datatype Root = Root(id: nat, name: string, nodes: seq<Node>)

  function LeafMap(ls: seq<Leaf>): map<nat, string>
  {
    if ls == [] then map[] else LeafMap(ls[..|ls| - 1])[ls[|ls| - 1].id := ls[|ls| - 1].name]
  }

  function NodeMap(ns: seq<Node>): map<nat, Mid>
  {
    if ns == [] then map[]
    else
      var n := ns[|ns| - 1];
      NodeMap(ns[..|ns| - 1])[n.id := Mid(n.name, LeafMap(n.leaves))]
  }

  /** The map a list of trees stands for; of two entries with one ID the later counts. */
  function RootMap(rs: seq<Root>): map<nat, Tree>
  {
    if rs == [] then map[]
    else
      var r := rs[|rs| - 1];
      RootMap(rs[..|rs| - 1])[r.id := Tree(r.name, NodeMap(r.nodes))]
  }

  function LeafRecords(ls: seq<Leaf>): seq<Record>
  {
    if ls == [] then [] else LeafRecords(ls[..|ls| - 1]) + [Record(2, ls[|ls| - 1].id, ls[|ls| - 1].name)]
  }

  function NodeRecords(ns: seq<Node>): seq<Record>
  {
    if ns == [] then []
    else
      var n := ns[|ns| - 1];
      NodeRecords(ns[..|ns| - 1]) + ([Record(1, n.id, n.name)] + LeafRecords(n.leaves))
  }

  function RootRecords(rs: seq<Root>): seq<Record>
  {
    if rs == [] then []
    else
      var r := rs[|rs| - 1];
      RootRecords(rs[..|rs| - 1]) + ([Record(0, r.id, r.name)] + NodeRecords(r.nodes))
  }

  // ----- records into objects -----

  function InsertAll(f: Forest, rs: seq<Record>): (res: Result<Forest>)
    requires f.Valid()
    ensures res.Ok? ==> res.value.Valid()
  {
    if rs == [] then Ok(f)
    else
      var before := InsertAll(f, rs[..|rs| - 1]);
      if before.Ok? then Insert(before.value, rs[|rs| - 1]) else before
  }

  lemma {:induction false} InsertAllAppend(f: Forest, a: seq<Record>, b: seq<Record>)
    requires f.Valid() && InsertAll(f, a).Ok?
    ensures InsertAll(f, a + b) == InsertAll(InsertAll(f, a).value, b)
  {
    if b == [] {
      assert a + b == a;
    } else {
      var init, r := b[..|b| - 1], b[|b| - 1];
      InsertAllAppend(f, a, init);
      InsertAllNext(f, a + init, r);
      InsertAllNext(InsertAll(f, a).value, init, r);
      assert b == init + [r] && a + b == a + init + [r];
    }
  }

  lemma InsertAllNext(f: Forest, rs: seq<Record>, r: Record)
    requires f.Valid()
    ensures InsertAll(f, rs + [r])
      == if InsertAll(f, rs).Ok? then Insert(InsertAll(f, rs).value, r) else InsertAll(f, rs)
  {
    assert (rs + [r])[..|rs|] == rs;
  }

  /** The forest with more leaves in the middle object parsed last. */
  function WithLeaves(f: Forest, more: map<nat, string>): (f': Forest)
    requires f.Valid() && f.mid.Some?
    ensures f'.Valid() && f'.mid == f.mid
  {
    var m := f.mid.value;
    f.(mids := f.mids[m := Mid(f.mids[m].name, f.mids[m].leaves + more)])
  }

  lemma LeafInserted(f: Forest, more: map<nat, string>, l: Leaf)
    requires f.Valid() && f.mid.Some?
    ensures Insert(WithLeaves(f, more), Record(2, l.id, l.name)) == Ok(WithLeaves(f, more[l.id := l.name]))
  {
    var m := f.mid.value;
    var leaves := f.mids[m].leaves;
    assert (leaves + more)[l.id := l.name] == leaves + more[l.id := l.name];
    var mid := Mid(f.mids[m].name, leaves + more[l.id := l.name]);
    assert WithLeaves(f, more).mids[m := mid] == f.mids[m := mid];
  }

  /** Level-2 records change only the middle object parsed last. */
  lemma {:induction false} LeavesInserted(f: Forest, ls: seq<Leaf>)
    requires f.Valid() && f.mid.Some?
    ensures InsertAll(f, LeafRecords(ls)) == Ok(WithLeaves(f, LeafMap(ls)))
  {
    if ls == [] {
      assert f.mids[f.mid.value].leaves + map[] == f.mids[f.mid.value].leaves;
      assert f.mids[f.mid.value := f.mids[f.mid.value]] == f.mids;
    } else {
      var init, l := ls[..|ls| - 1], ls[|ls| - 1];
      LeavesInserted(f, init);
      assert LeafRecords(ls)[..|LeafRecords(ls)| - 1] == LeafRecords(init);
      LeafInserted(f, LeafMap(init), l);
    }
  }

  lemma InsertSingle(f: Forest, r: Record)
    requires f.Valid()
    ensures InsertAll(f, [r]) == Insert(f, r)
  {
    assert [r][..0] == [];
    assert InsertAll(f, []) == Ok(f);
  }

  /** The forest with one more middle object, referenced from the top object parsed last. */
  function WithChild(f: Forest, id: nat, child: Mid): (f': Forest)
    requires f.Valid() && f.top.Some?
    ensures f'.Valid()
  {
    var t := f.top.value;
    f.(mid := Some(|f.mids|),
       tops := f.tops[t := Top(f.tops[t].name, f.tops[t].children[id := |f.mids|])],
       mids := f.mids + [child])
  }

  /** A product with its interfaces becomes one new object, referenced from the vendor parsed last only. */
  lemma NodeInserted(f: Forest, n: Node)
    requires f.Valid() && f.top.Some?
    ensures InsertAll(f, [Record(1, n.id, n.name)] + LeafRecords(n.leaves))
         == Ok(WithChild(f, n.id, Mid(n.name, LeafMap(n.leaves))))
  {
    var r := Record(1, n.id, n.name);
    var f1 := WithChild(f, n.id, Mid(n.name, map[]));
    assert Insert(f, r) == Ok(f1);
    InsertSingle(f, r);
    InsertAllAppend(f, [r], LeafRecords(n.leaves));
    LeavesInserted(f1, n.leaves);
    LeavesOfNewChild(f, n.id, n.name, LeafMap(n.leaves));
  }

  lemma LeavesOfNewChild(f: Forest, id: nat, name: string, leaves: map<nat, string>)
    requires f.Valid() && f.top.Some?
    ensures WithLeaves(WithChild(f, id, Mid(name, map[])), leaves) == WithChild(f, id, Mid(name, leaves))
  {
    assert map[] + leaves == leaves;
    assert (f.mids + [Mid(name, map[])])[|f.mids| := Mid(name, leaves)] == f.mids + [Mid(name, leaves)];
  }

  ghost predicate OnlyCurrentTopGrew(f: Forest, f': Forest)
    requires f.Valid() && f.top.Some?
  {
    && f'.top == f.top && f'.roots == f.roots && f.mids <= f'.mids && |f'.tops| == |f.tops|
    && forall t :: 0 <= t < |f.tops| && t != f.top.value ==> f'.tops[t] == f.tops[t]
  }

  lemma ChildAdded(f: Forest, id: nat, child: Mid)
    requires f.Valid() && f.top.Some?
    ensures var f', t := WithChild(f, id, child), f.top.value;
      && OnlyCurrentTopGrew(f, f') && f'.tops[t].name == f.tops[t].name
      && ChildTrees(f', f'.tops[t].children) == ChildTrees(f, f.tops[t].children)[id := child]
  {
    assert f.tops[f.top.value].Below(|f.mids|);
  }

  ghost predicate Holds(f: Forest, t: nat, trees: map<nat, Mid>)
    requires f.Valid() && t < |f.tops|
  {
    ChildTrees(f, f.tops[t].children) == trees
  }

  lemma {:induction false} NodesInserted(f: Forest, ns: seq<Node>)
    requires f.Valid() && f.top.Some? && f.tops[f.top.value].children == map[]
    ensures var res := InsertAll(f, NodeRecords(ns)); var t := f.top.value;
      && res.Ok? && OnlyCurrentTopGrew(f, res.value)
      && res.value.tops[t].name == f.tops[t].name
      && Holds(res.value, t, NodeMap(ns))
  {
    if ns != [] {
      var init, n := ns[..|ns| - 1], ns[|ns| - 1];
      NodesInserted(f, init);
      var f1 := InsertAll(f, NodeRecords(init)).value;
      InsertAllAppend(f, NodeRecords(init), [Record(1, n.id, n.name)] + LeafRecords(n.leaves));
      NodeInserted(f1, n);
      ChildAdded(f1, n.id, Mid(n.name, LeafMap(n.leaves)));
    }
  }

  lemma ChildTreesKept(f: Forest, f': Forest, t: nat)
    requires f.Valid() && f'.Valid() && f.mids <= f'.mids && t < |f.tops| && t < |f'.tops| && f'.tops[t] == f.tops[t]
    ensures ChildTrees(f', f'.tops[t].children) == ChildTrees(f, f.tops[t].children)
  {
    assert f.tops[t].Below(|f.mids|);
  }

  lemma ResolveGrew(f: Forest, f': Forest, r: Root)
    requires f.Valid() && f'.Valid()
    requires f.mids <= f'.mids && |f'.tops| == |f.tops| + 1
    requires forall t :: 0 <= t < |f.tops| ==> f'.tops[t] == f.tops[t]
    requires f'.roots == f.roots[r.id := |f.tops|]
    requires f'.tops[|f.tops|].name == r.name
    requires Holds(f', |f.tops|, NodeMap(r.nodes))
    ensures Resolve(f') == Resolve(f)[r.id := Tree(r.name, NodeMap(r.nodes))]
  {
    var rhs := Resolve(f)[r.id := Tree(r.name, NodeMap(r.nodes))];
    assert Resolve(f').Keys == rhs.Keys;
    forall id | id in Resolve(f') ensures Resolve(f')[id] == rhs[id] {
      if id != r.id {
        ChildTreesKept(f, f', f.roots[id]);
      }
    }
  }

  lemma RootInserted(f: Forest, r: Root)
    requires f.Valid()
    ensures var res := InsertAll(f, [Record(0, r.id, r.name)] + NodeRecords(r.nodes));
      res.Ok? && Resolve(res.value) == Resolve(f)[r.id := Tree(r.name, NodeMap(r.nodes))]
  {
    var head := Record(0, r.id, r.name);
    InsertSingle(f, head);
    var f1 := Insert(f, head).value;
    InsertAllAppend(f, [head], NodeRecords(r.nodes));
    NodesInserted(f1, r.nodes);
    ResolveGrew(f, InsertAll(f1, NodeRecords(r.nodes)).value, r);
  }

  /** Inserting printed trees into an empty forest makes the maps show exactly those trees. */
  lemma {:induction false} RootsInserted(rs: seq<Root>)
    ensures var res := InsertAll(EMPTY, RootRecords(rs));
      res.Ok? && Resolve(res.value) == RootMap(rs)
  {
    if rs == [] {
      assert Resolve(EMPTY) == map[];
    } else {
      var init, r := rs[..|rs| - 1], rs[|rs| - 1];
      RootsInserted(init);
      InsertAllAppend(EMPTY, RootRecords(init), [Record(0, r.id, r.name)] + NodeRecords(r.nodes));
      RootInserted(InsertAll(EMPTY, RootRecords(init)).value, r);
    }
  }

  // ----- lines -----

  predicate PlainName(s: string)
  {
    '\n' !in s && '\r' !in s
  }

  function TabText(n: nat): (s: string)
    ensures |s| == n
  {
    seq(n, _ => '\t')
  }

  /** How a record is printed; a top-level class line carries the marker that switches the kind. */
  function PrintRecord(r: Record, isClass: bool): string
  {
    var marker := if isClass && r.level == 0 then "C " else "";
    TabText(r.level) + marker + HexWidth(r.id, if isClass then 2 else 4) + "  " + r.name
  }

  predicate Printable(r: Record, isClass: bool)
  {
    && r.id < (if isClass then 0x100 else 0x10000)
    && PlainName(r.name)
    && |PrintRecord(r, isClass)| < READER_SIZE
  }

  lemma {:induction false} DoubleSpaceAfter(p: string, name: string)
    requires forall i :: 0 <= i < |p| - 1 ==> !(p[i] == ' ' && p[i + 1] == ' ')
    requires p != "" ==> p[|p| - 1] != ' '
    ensures DoubleSpace(p + "  " + name) == |p|
  {
    var s := p + "  " + name;
    if p != "" {
      assert s[0] == p[0];
      assert |p| > 1 ==> s[1] == p[1];
      assert s[1..] == p[1..] + "  " + name;
      DoubleSpaceAfter(p[1..], name);
    }
  }

  lemma {:induction false} TabsAfter(n: nat, rest: string)
    requires rest == "" || rest[0] != '\t'
    ensures Tabs(TabText(n) + rest) == n
  {
    if n == 0 {
      assert TabText(n) + rest == rest;
    } else {
      assert (TabText(n) + rest)[1..] == TabText(n - 1) + rest;
      TabsAfter(n - 1, rest);
    }
  }

  lemma HexHasNoSeparators(s: string)
    requires forall d :: d in s ==> d in HEX
    ensures ' ' !in s && '\t' !in s && '#' !in s && '\n' !in s && '\r' !in s
  {
    assert forall i :: 0 <= i < |HEX| ==> HEX[i] >= '0';
  }

  lemma DigitsParse(id: nat, isClass: bool)
    requires id < (if isClass then 0x100 else 0x10000)
    ensures ParseUint16(HexWidth(id, if isClass then 2 else 4)) == Some(id)
  {
    Pow16Values();
    HexRoundTrip(id, if isClass then 2 else 4);
  }

  /** Splitting a line made of tabs, a piece without tabs and double spaces, two spaces and a name. */
  lemma SplitParts(level: nat, piece: string, name: string)
    requires piece != "" && piece[0] != '\t' && piece[|piece| - 1] != ' '
    requires forall i :: 0 <= i < |piece| - 1 ==> !(piece[i] == ' ' && piece[i + 1] == ' ')
    ensures var s := TabText(level) + piece + "  " + name;
      && DoubleSpace(s) == level + |piece| < |s|
      && Tabs(s[..DoubleSpace(s)]) == level
      && s[..DoubleSpace(s)][level..] == piece
      && s[DoubleSpace(s) + 2..] == name
  {
    var p := TabText(level) + piece;
    var s := p + "  " + name;
    DoubleSpaceAfter(p, name);
    assert s[..|p|] == p;
    TabsAfter(level, piece);
  }

  lemma SplitMarked(digits: string, id: nat, name: string)
    requires digits != "" && ' ' !in digits && '\t' !in digits && ParseUint16(digits) == Some(id)
    ensures SplitLine("C " + digits + "  " + name) == Ok(("C", Record(0, id, name)))
  {
    var piece := "C" + [' '] + digits;
    var s := "C " + digits + "  " + name;
    assert s == TabText(0) + piece + "  " + name;
    assert forall i :: 2 <= i < |piece| ==> piece[i] == digits[i - 2];
    SplitParts(0, piece, name);
    IndexOfAfter("C", ' ', digits);
    assert piece[..1] == "C" && piece[2..] == digits;
  }

  lemma SplitUnmarked(level: nat, digits: string, id: nat, name: string)
    requires digits != "" && ' ' !in digits && '\t' !in digits && ParseUint16(digits) == Some(id)
    ensures SplitLine(TabText(level) + digits + "  " + name) == Ok(("", Record(level, id, name)))
  {
    SplitParts(level, digits, name);
    assert IndexOf(digits, ' ') == |digits|;
  }

  lemma PrintMarked(r: Record)
    requires r.level == 0
    ensures PrintRecord(r, true) == "C " + HexWidth(r.id, 2) + "  " + r.name
  {
    assert TabText(0) == "";
  }

  lemma PrintUnmarked(r: Record, isClass: bool)
    requires !isClass || r.level != 0
    ensures PrintRecord(r, isClass) == TabText(r.level) + HexWidth(r.id, if isClass then 2 else 4) + "  " + r.name
  {
    assert TabText(r.level) + "" == TabText(r.level);
  }

  /** Splitting a printed record gives it back, with the kind marker that was printed. */
  lemma SplitPrinted(r: Record, isClass: bool)
    requires Printable(r, isClass)
    ensures SplitLine(PrintRecord(r, isClass)) == Ok((if isClass && r.level == 0 then "C" else "", r))
  {
    var digits := HexWidth(r.id, if isClass then 2 else 4);
    DigitsParse(r.id, isClass);
    HexHasNoSeparators(digits);
    if isClass && r.level == 0 {
      SplitMarked(digits, r.id, r.name);
      PrintMarked(r);
    } else {
      SplitUnmarked(r.level, digits, r.id, r.name);
      PrintUnmarked(r, isClass);
    }
  }

  lemma PrintedNotSkipped(r: Record, isClass: bool)
    requires Printable(r, isClass)
    ensures !Skipped(PrintRecord(r, isClass))
  {
    var digits := HexWidth(r.id, if isClass then 2 else 4);
    HexHasNoSeparators(digits);
    assert digits[0] in digits;
    var c := PrintRecord(r, isClass)[0];
    assert c == '\t' || c == 'C' || c == digits[0];
  }

  function PrintAll(rs: seq<Record>, isClass: bool): seq<string>
  {
    seq(|rs|, i requires 0 <= i < |rs| => PrintRecord(rs[i], isClass))
  }

  predicate AllPrintable(rs: seq<Record>, isClass: bool)
  {
    forall i :: 0 <= i < |rs| ==> Printable(rs[i], isClass)
  }

  lemma FeedVendorLine(st: State, r: Record)
    requires st.Valid() && st.kind == "" && Printable(r, false) && Insert(st.vendors, r).Ok?
    ensures Feed(st, PrintRecord(r, false)) == Ok(st.(vendors := Insert(st.vendors, r).value))
  {
    SplitPrinted(r, false);
    PrintedNotSkipped(r, false);
  }

  lemma {:induction false} FeedVendorLines(st: State, rs: seq<Record>)
    requires st.Valid() && st.kind == "" && AllPrintable(rs, false)
    requires InsertAll(st.vendors, rs).Ok?
    ensures FeedAll(st, PrintAll(rs, false)) == Ok(st.(vendors := InsertAll(st.vendors, rs).value))
  {
    if rs != [] {
      var init, r := rs[..|rs| - 1], rs[|rs| - 1];
      LastPrinted(rs, false);
      InsertAllNext(st.vendors, init, r);
      FeedVendorLines(st, init);
      FeedVendorNext(st, PrintAll(init, false), InsertAll(st.vendors, init).value, r);
    }
  }

  lemma LastPrinted(rs: seq<Record>, isClass: bool)
    requires rs != [] && AllPrintable(rs, isClass)
    ensures var init, r := rs[..|rs| - 1], rs[|rs| - 1];
      && rs == init + [r] && AllPrintable(init, isClass) && Printable(r, isClass)
      && PrintAll(rs, isClass) == PrintAll(init, isClass) + [PrintRecord(r, isClass)]
  {
  }

  lemma FeedVendorNext(st: State, lines: seq<string>, f: Forest, r: Record)
    requires st.Valid() && st.kind == "" && f.Valid() && FeedAll(st, lines) == Ok(st.(vendors := f))
    requires Printable(r, false) && Insert(f, r).Ok?
    ensures FeedAll(st, lines + [PrintRecord(r, false)]) == Ok(st.(vendors := Insert(f, r).value))
  {
    FeedAllNext(st, lines, PrintRecord(r, false));
    FeedVendorLine(st.(vendors := f), r);
  }

  lemma FeedAllNext(st: State, lines: seq<string>, line: string)
    requires st.Valid()
    ensures FeedAll(st, lines + [line])
      == if FeedAll(st, lines).Ok? then Feed(FeedAll(st, lines).value, line) else FeedAll(st, lines)
  {
    assert (lines + [line])[..|lines|] == lines;
  }

  lemma FeedClassLine(st: State, r: Record)
    requires st.Valid() && Printable(r, true) && (st.kind == "C" || r.level == 0)
    requires Insert(st.classes, r).Ok?
    ensures Feed(st, PrintRecord(r, true)) == Ok(st.(kind := "C", classes := Insert(st.classes, r).value))
  {
    SplitPrinted(r, true);
    PrintedNotSkipped(r, true);
    assert r.(id := r.id % 256) == r;
  }

  lemma {:induction false} FeedClassLines(st: State, rs: seq<Record>)
    requires st.Valid() && AllPrintable(rs, true)
    requires st.kind == "C" || rs == [] || rs[0].level == 0
    requires InsertAll(st.classes, rs).Ok?
    ensures FeedAll(st, PrintAll(rs, true)) ==
      Ok(st.(kind := if rs == [] then st.kind else "C", classes := InsertAll(st.classes, rs).value))
  {
    if rs != [] {
      var init, r := rs[..|rs| - 1], rs[|rs| - 1];
      LastPrinted(rs, true);
      InsertAllNext(st.classes, init, r);
      assert init != [] ==> init[0] == rs[0];
      FeedClassLines(st, init);
      FeedAllNext(st, PrintAll(init, true), PrintRecord(r, true));
      FeedClassLine(FeedAll(st, PrintAll(init, true)).value, r);
    }
  }

  lemma {:induction false} FeedAllAppend(st: State, a: seq<string>, b: seq<string>)
    requires st.Valid() && FeedAll(st, a).Ok?
    ensures FeedAll(st, a + b) == FeedAll(FeedAll(st, a).value, b)
  {
    if b == [] {
      assert a + b == a;
    } else {
      FeedAllAppend(st, a, b[..|b| - 1]);
      assert (a + b)[..|a + b| - 1] == a + b[..|b| - 1];
    }
  }

  predicate Readable(line: string)
  {
    '\n' !in line && !EndsWithCR(line) && |line| < READER_SIZE
  }

  /** A line as the reader hands it over: without a carriage return at its end. */
  function Chomp(line: string): string
  {
    if EndsWithCR(line) then line[..|line| - 1] else line
  }

  function ChompAll(lines: seq<string>): seq<string>
  {
    seq(|lines|, i requires 0 <= i < |lines| => Chomp(lines[i]))
  }

  predicate FitsReader(line: string) { '\n' !in line && |line| < READER_SIZE }

  lemma ReadFirst(line: string, rest: string)
    requires FitsReader(line)
    ensures ReadLine(line + ['\n'] + rest) == Ok((Chomp(line), rest))
  {
    IndexOfAfter(line, '\n', rest);
    var text := line + ['\n'] + rest;
    assert text[..|line|] == line && text[|line| + 1..] == rest;
    assert EndsWithCR(line) ==> text[..|line| - 1] == line[..|line| - 1];
  }

  /** The reader hands the parser exactly the lines of the file, and then whatever follows them. */
  lemma {:induction false} ReadLinesThen(st: State, lines: seq<string>, rest: string)
    requires st.Valid()
    requires forall i :: 0 <= i < |lines| ==> FitsReader(lines[i])
    ensures ParseText(st, FileText(lines) + rest) ==
      var res := FeedAll(st, ChompAll(lines)); if res.Ok? then ParseText(res.value, rest) else res
    decreases |lines|
  {
    if lines == [] {
      assert FileText(lines) + rest == rest;
    } else {
      var line, tail := lines[0], FileText(lines[1..]) + rest;
      assert FileText(lines) + rest == line + ['\n'] + tail;
      ReadFirst(line, tail);
      FeedAllCons(st, ChompAll(lines));
      assert ChompAll(lines)[1..] == ChompAll(lines[1..]);
      var next := Feed(st, Chomp(line));
      if next.Ok? {
        ReadLinesThen(next.value, lines[1..], rest);
      }
    }
  }

  lemma FeedAllCons(st: State, lines: seq<string>)
    requires st.Valid() && lines != []
    ensures FeedAll(st, lines) ==
      var next := Feed(st, lines[0]); if next.Ok? then FeedAll(next.value, lines[1..]) else next
  {
    if Feed(st, lines[0]).Ok? {
      assert [lines[0]][..0] == [];
      assert FeedAll(st, []) == Ok(st);
      assert FeedAll(st, [lines[0]]) == Feed(st, lines[0]);
      FeedAllAppend(st, [lines[0]], lines[1..]);
      assert [lines[0]] + lines[1..] == lines;
    } else {
      FeedAllStops(st, lines);
    }
  }

  /** The reader hands the parser exactly the lines of the file. */
  lemma ReadFile(st: State, lines: seq<string>)
    requires st.Valid()
    requires forall i :: 0 <= i < |lines| ==> Readable(lines[i])
    ensures ParseText(st, FileText(lines)) == FeedAll(st, lines)
  {
    ReadLinesThen(st, lines, "");
    assert FileText(lines) + "" == FileText(lines);
    assert ChompAll(lines) == lines;
  }

  lemma {:induction false} FeedAllStops(st: State, lines: seq<string>)
    requires st.Valid() && lines != [] && Feed(st, lines[0]).Err?
    ensures FeedAll(st, lines) == Feed(st, lines[0])
  {
    if |lines| == 1 {
      assert lines[..0] == [];
      assert FeedAll(st, []) == Ok(st);
    } else {
      FeedAllStops(st, lines[..|lines| - 1]);
    }
  }

  lemma PrintedIsReadable(r: Record, isClass: bool)
    requires Printable(r, isClass)
    ensures Readable(PrintRecord(r, isClass))
  {
    var marker := if isClass && r.level == 0 then "C " else "";
    var digits := HexWidth(r.id, if isClass then 2 else 4);
    var s := PrintRecord(r, isClass);
    var p := TabText(r.level) + marker + digits + "  ";
    HexHasNoSeparators(digits);
    assert s == p + r.name;
    assert '\n' !in p && '\r' !in p;
    assert '\r' !in s && '\n' !in s;
  }

  predicate PrintableFile(vendors: seq<Root>, classes: seq<Root>)
  {
    AllPrintable(RootRecords(vendors), false) && AllPrintable(RootRecords(classes), true)
  }

  function PrintFile(vendors: seq<Root>, classes: seq<Root>): string
  {
    FileText(PrintAll(RootRecords(vendors), false) + PrintAll(RootRecords(classes), true))
  }

  lemma {:induction false} FirstRecordIsRoot(rs: seq<Root>)
    ensures RootRecords(rs) == [] || RootRecords(rs)[0].level == 0
  {
    if rs != [] {
      FirstRecordIsRoot(rs[..|rs| - 1]);
    }
  }

  /**
   For every list of vendor trees followed by every list of class trees, parsing the printed file
   gives back exactly the maps those trees stand for.
   */
  lemma RoundTrip(vendors: seq<Root>, classes: seq<Root>)
    requires PrintableFile(vendors, classes)
    ensures var res := ParseText(State("", EMPTY, EMPTY), PrintFile(vendors, classes));
      && res.Ok?
      && Resolve(res.value.vendors) == RootMap(vendors)
      && Resolve(res.value.classes) == RootMap(classes)
  {
    var st := State("", EMPTY, EMPTY);
    var vs, cs := RootRecords(vendors), RootRecords(classes);
    RootsInserted(vendors);
    RootsInserted(classes);
    FirstRecordIsRoot(classes);
    FeedVendorLines(st, vs);
    var st1 := FeedAll(st, PrintAll(vs, false)).value;
    FeedClassLines(st1, cs);
    FeedAllAppend(st, PrintAll(vs, false), PrintAll(cs, true));
    FileIsReadable(vs, cs);
    ReadFile(st, PrintAll(vs, false) + PrintAll(cs, true));
  }

  lemma FileIsReadable(vs: seq<Record>, cs: seq<Record>)
    requires AllPrintable(vs, false) && AllPrintable(cs, true)
    ensures var lines := PrintAll(vs, false) + PrintAll(cs, true); forall i :: 0 <= i < |lines| ==> Readable(lines[i])
  {
    var lines := PrintAll(vs, false) + PrintAll(cs, true);
    forall i | 0 <= i < |lines| ensures Readable(lines[i]) {
      if i < |vs| {
        PrintedIsReadable(vs[i], false);
      } else {
        PrintedIsReadable(cs[i - |vs|], true);
      }
    }
  }

  // ----- where a level-2 line goes -----

  /** The line is skipped or is not a level-1 line. */
  predicate NotProduct(line: string)
  {
    Skipped(line) || (SplitLine(line).Ok? && SplitLine(line).value.1.level != 1)
  }

  /** Lines that start no product leave the current product, and every vendor's product map, alone. */
  lemma {:induction false} ProductStays(st: State, lines: seq<string>)
    requires st.Valid() && FeedAll(st, lines).Ok? && FeedAll(st, lines).value.kind == ""
    requires forall i :: 0 <= i < |lines| ==> NotProduct(lines[i])
    ensures var f := FeedAll(st, lines).value.vendors;
      && st.kind == ""
      && f.mid == st.vendors.mid && |f.mids| == |st.vendors.mids| && |f.tops| >= |st.vendors.tops|
      && forall t :: 0 <= t < |st.vendors.tops| ==> f.tops[t] == st.vendors.tops[t]
  {
    if lines != [] {
      var init := lines[..|lines| - 1];
      assert FeedAll(st, init).value.kind == "";
      ProductStays(st, init);
    }
  }

  /**
   In every file that parses as vendor lines so far: a level-2 line is stored in the product of
   the nearest level-1 line above it, under the vendor that line was read for, no matter how many
   vendor lines stand between the two.
   */
  lemma InterfaceGoesToLastProduct(st: State, product: string, between: seq<string>, line: string)
    requires st.Valid() && st.kind == "" && !Skipped(product) && !Skipped(line)
    requires FeedAll(st, [product] + between + [line]).Ok?
    requires FeedAll(st, [product] + between + [line]).value.kind == ""
    requires SplitLine(product).Ok? && SplitLine(product).value.1.level == 1
    requires SplitLine(line).Ok? && SplitLine(line).value.1.level == 2
    requires forall i :: 0 <= i < |between| ==> NotProduct(between[i])
    ensures var f := FeedAll(st, [product] + between + [line]).value.vendors;
      var p, l := SplitLine(product).value.1, SplitLine(line).value.1;
      && st.vendors.top.Some? && st.vendors.top.value < |f.tops|
      && var vendor := f.tops[st.vendors.top.value];
      && p.id in vendor.children && vendor.children[p.id] == |st.vendors.mids| < |f.mids|
      && l.id in f.mids[vendor.children[p.id]].leaves
      && f.mids[vendor.children[p.id]].leaves[l.id] == l.name
  {
    var all := [product] + between + [line];
    assert all[..|all| - 1] == [product] + between;
    var before := FeedAll(st, [product] + between);
    FeedAllHead(st, product, between);
    var st1 := Feed(st, product).value;
    assert before.value.kind == "";
    ProductStays(st1, between);
  }

  lemma FeedAllHead(st: State, head: string, rest: seq<string>)
    requires st.Valid() && FeedAll(st, [head] + rest).Ok?
    ensures Feed(st, head).Ok? && FeedAll(st, [head] + rest) == FeedAll(Feed(st, head).value, rest)
  {
    assert [head][..0] == [];
    assert FeedAll(st, []) == Ok(st);
    assert FeedAll(st, [head]) == Feed(st, head);
    if Feed(st, head).Err? {
      FeedAllStops(st, [head] + rest);
    }
    FeedAllAppend(st, [head], rest);
  }
}
