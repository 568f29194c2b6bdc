/**
 Tables in any layout, and what is read back from them.
 */
module MigTables {
  import opened Text
  import opened Machine
  import opened MigListing
  import M = MigModel

  /** A line of a table: a row of words between gaps, or any line that does not matter. */
  datatype Line = Other(text: string) | Row(lead: string, words: seq<string>, gaps: seq<string>, trail: string)

  predicate Word(w: string)
  {
    w != "" && forall c :: c in w ==> !IsTrimmed(c) && c != '|' && c != ','
  }

  predicate Blank(s: string) { forall c :: c in s ==> IsSpace(c) && c != '\n' }

  predicate AllWords(words: seq<string>) { forall i :: 0 <= i < |words| ==> Word(words[i]) }

  predicate AllGaps(gaps: seq<string>) { forall i :: 0 <= i < |gaps| ==> gaps[i] != "" && Blank(gaps[i]) }

  predicate Proper(l: Line)
  {
    match l
    case Other(text) => OneLine(text) && !Contains(DropCR(text), MIG_PREFIX)
    case Row(lead, words, gaps, trail) =>
      && Blank(lead) && Blank(trail)
      && |words| == |gaps| + 1 && AllWords(words) && AllGaps(gaps) && MIG_PREFIX in words
  }

  /** Every line is proper and fits the scanner's buffer. */
  predicate AllProper(table: seq<Line>)
  {
    forall i :: 0 <= i < |table| ==> Proper(table[i]) && Fits(Print(table[i]))
  }

  /** The words with the gaps between them. */
  function Spread(words: seq<string>, gaps: seq<string>): string
    requires |words| == |gaps| + 1
    decreases |gaps|
  {
    if gaps == [] then words[0] else words[0] + (gaps[0] + Spread(words[1..], gaps[1..]))
  }

  function Print(l: Line): string
    requires Proper(l)
  {
    match l
    case Other(text) => text
    case Row(lead, words, gaps, trail) => "|" + (lead + (Spread(words, gaps) + (trail + "|")))
  }

  function PrintAll(table: seq<Line>): seq<string>
    requires AllProper(table)
  {
    seq(|table|, i requires 0 <= i < |table| => Print(table[i]))
  }

  /** The words of the rows, in order. */
  function WordsOf(table: seq<Line>): seq<seq<string>>
  {
    if table == [] then []
    else
      var l := table[|table| - 1];
      WordsOf(table[..|table| - 1]) + if l.Row? then [l.words] else []
  }

  // ----- one row -----

  lemma {:induction false} CollapseWord(w: string, rest: string)
    requires forall c :: c in w ==> !IsSpace(c)
    ensures Collapse(w + rest) == w + Collapse(rest)
  {
    if w == "" {
      assert w + rest == rest;
    } else {
      assert (w + rest)[1..] == w[1..] + rest;
      CollapseWord(w[1..], rest);
      Assoc([w[0]], w[1..], Collapse(rest));
      assert w == [w[0]] + w[1..];
    }
  }

  lemma {:induction false} CollapseGap(gap: string, rest: string)
    requires gap != "" && Blank(gap) && rest != "" && !IsSpace(rest[0])
    ensures Collapse(gap + rest) == [','] + Collapse(rest)
  {
    assert (gap + rest)[1..] == gap[1..] + rest;
    if |gap| == 1 {
      assert gap[1..] + rest == rest;
    } else {
      assert (gap + rest)[1] == gap[1];
      CollapseGap(gap[1..], rest);
    }
  }

  lemma WordEnds(w: string)
    requires Word(w)
    ensures !IsTrimmed(w[0]) && !IsTrimmed(w[|w| - 1])
  {
    assert w[0] in w && w[|w| - 1] in w;
  }

  lemma {:induction false} SpreadEnds(words: seq<string>, gaps: seq<string>)
    requires |words| == |gaps| + 1 && AllWords(words)
    ensures var s := Spread(words, gaps); s != "" && !IsTrimmed(s[0]) && !IsTrimmed(s[|s| - 1])
    decreases |gaps|
  {
    WordEnds(words[0]);
    if gaps != [] {
      SpreadEnds(words[1..], gaps[1..]);
    }
  }

  lemma {:induction false} CollapseSpread(words: seq<string>, gaps: seq<string>)
    requires |words| == |gaps| + 1 && AllWords(words) && AllGaps(gaps)
    ensures Collapse(Spread(words, gaps)) == Join(words, ',')
    decreases |gaps|
  {
    var w := words[0];
    if gaps == [] {
      CollapseWord(w, "");
      assert w + "" == w;
    } else {
      var rest := Spread(words[1..], gaps[1..]);
      SpreadEnds(words[1..], gaps[1..]);
      CollapseSpread(words[1..], gaps[1..]);
      CollapseGap(gaps[0], rest);
      CollapseWord(w, gaps[0] + rest);
      Assoc(w, [','], Collapse(rest));
    }
  }

  lemma {:induction false} TrimLeading(lead: string, rest: string)
    requires Blank(lead) && rest != "" && !IsTrimmed(rest[0])
    ensures TrimLeft(lead + rest) == rest
  {
    if lead == "" {
      assert lead + rest == rest;
    } else {
      assert (lead + rest)[1..] == lead[1..] + rest;
      TrimLeading(lead[1..], rest);
    }
  }

  lemma {:induction false} TrimTrailing(rest: string, trail: string)
    requires Blank(trail) && rest != "" && !IsTrimmed(rest[|rest| - 1])
    ensures TrimRight(rest + trail) == rest
  {
    if trail == "" {
      assert rest + trail == rest;
    } else {
      var s := rest + trail;
      assert s[|s| - 1] == trail[|trail| - 1] && trail[|trail| - 1] in trail;
      assert s[..|s| - 1] == rest + trail[..|trail| - 1];
      TrimTrailing(rest, trail[..|trail| - 1]);
    }
  }

  /** Neither bars nor line feeds between the bars. */
  predicate Inner(s: string) { '|' !in s && '\n' !in s }

  lemma {:induction false} SpreadIsInner(words: seq<string>, gaps: seq<string>)
    requires |words| == |gaps| + 1 && AllWords(words) && AllGaps(gaps)
    ensures Inner(Spread(words, gaps))
    decreases |gaps|
  {
    assert Word(words[0]);
    if gaps != [] {
      SpreadIsInner(words[1..], gaps[1..]);
      assert Blank(gaps[0]);
    }
  }

  lemma BarsRemoved(inner: string)
    requires Inner(inner)
    ensures ReplaceAll("|" + (inner + "|"), "|", "") == inner
  {
    ReplaceCharConcat("|", inner + "|", '|', "");
    ReplaceCharConcat(inner, "|", '|', "");
    ReplaceCharAbsent(inner, '|', "");
    assert "|"[1..] == "";
    ReplaceCharAbsent("", '|', "");
    ReplaceCharCons("|", '|', "");
    assert inner + "" == inner && "" + inner == inner;
  }

  lemma {:induction false} ContainsLater(a: string, s: string, sub: string)
    requires Contains(s, sub)
    ensures Contains(a + s, sub)
  {
    if a == "" {
      assert a + s == s;
    } else {
      assert (a + s)[1..] == a[1..] + s;
      ContainsLater(a[1..], s, sub);
    }
  }

  lemma {:induction false} SpreadShowsWord(words: seq<string>, gaps: seq<string>, after: string, w: string)
    requires |words| == |gaps| + 1 && w in words
    ensures Contains(Spread(words, gaps) + after, w)
    decreases |gaps|
  {
    var s := Spread(words, gaps) + after;
    if words[0] == w {
      assert w <= s;
    } else {
      var rest := Spread(words[1..], gaps[1..]);
      SpreadShowsWord(words[1..], gaps[1..], after, w);
      assert s == (words[0] + gaps[0]) + (rest + after);
      ContainsLater(words[0] + gaps[0], rest + after, w);
    }
  }

  /** What is between the bars of a row. */
  function Between(l: Line): string
    requires l.Row? && Proper(l)
  {
    l.lead + (Spread(l.words, l.gaps) + l.trail)
  }

  lemma BetweenIsInner(l: Line)
    requires l.Row? && Proper(l)
    ensures Inner(Between(l)) && Print(l) == "|" + (Between(l) + "|")
  {
    SpreadIsInner(l.words, l.gaps);
  }

  lemma ElementsBetween(l: Line)
    requires l.Row? && Proper(l)
    ensures SplitOn(Collapse(TrimRight(TrimLeft(Between(l)))), ',') == l.words
  {
    var body := Spread(l.words, l.gaps);
    SpreadEnds(l.words, l.gaps);
    assert TrimLeft(Between(l)) == body + l.trail by {
      TrimLeading(l.lead, body + l.trail);
    }
    TrimTrailing(body, l.trail);
    CollapseSpread(l.words, l.gaps);
    SplitOnJoin(l.words, ',');
  }

  lemma RowShowsPrefix(l: Line)
    requires l.Row? && Proper(l)
    ensures Contains(Print(l), MIG_PREFIX)
  {
    var rest := Spread(l.words, l.gaps) + (l.trail + "|");
    SpreadShowsWord(l.words, l.gaps, l.trail + "|", MIG_PREFIX);
    assert Print(l) == ("|" + l.lead) + rest;
    ContainsLater("|" + l.lead, rest, MIG_PREFIX);
  }

  /** A row is recognised and cut into its words, whatever its layout. */
  lemma ElementsOfRow(l: Line)
    requires l.Row? && Proper(l)
    ensures Elements(Print(l)) == l.words
    ensures OneLine(Print(l)) && DropCR(Print(l)) == Print(l) && Contains(Print(l), MIG_PREFIX)
  {
    BetweenIsInner(l);
    BarsRemoved(Between(l));
    ElementsBetween(l);
    RowShowsPrefix(l);
  }

  // ----- a table -----

  lemma {:induction false} MigLinesOfTable(table: seq<Line>)
    requires AllProper(table)
    ensures ElementsOf(MigLines(PrintAll(table))) == WordsOf(table)
  {
    if table != [] {
      var init, l := table[..|table| - 1], table[|table| - 1];
      PrintLast(table);
      MigLinesOfTable(init);
      MigLinesNext(PrintAll(init), l);
    }
  }

  lemma PrintLast(table: seq<Line>)
    requires table != [] && AllProper(table)
    ensures var init, l := table[..|table| - 1], table[|table| - 1];
      AllProper(init) && Proper(l) && PrintAll(table) == PrintAll(init) + [Print(l)]
  {
    var init := table[..|table| - 1];
    assert forall i :: 0 <= i < |init| ==> init[i] == table[i] && Proper(table[i]);
  }

  lemma MigLinesNext(lines: seq<string>, l: Line)
    requires Proper(l)
    ensures ElementsOf(MigLines(lines + [Print(l)])) == ElementsOf(MigLines(lines)) + if l.Row? then [l.words] else []
  {
    MigLinesAppend(lines, Print(l));
    if l.Row? {
      ElementsOfRow(l);
      ElementsOfAppend(MigLines(lines), Print(l));
    }
  }

  lemma ElementsOfAppend(lines: seq<string>, line: string)
    ensures ElementsOf(lines + [line]) == ElementsOf(lines) + [Elements(line)]
  {
  }

  /** Reading a printed table gives back the words of its rows. */
  lemma RowsOfTable(table: seq<Line>)
    requires AllProper(table)
    ensures Readable(FileText(PrintAll(table))) && Rows(FileText(PrintAll(table))) == WordsOf(table)
  {
    var lines := PrintAll(table);
    forall i | 0 <= i < |lines| ensures OneLine(lines[i]) {
      assert Proper(table[i]);
      if table[i].Row? {
        ElementsOfRow(table[i]);
      }
    }
    ContentOfFileText(lines);
    MigLinesOfTable(table);
  }

  // ----- what the rows show -----

  /** The row of a profile: GPU, name in two words, ID, and free instances out of all. */
  ghost predicate ShowsProfile(words: seq<string>, r: M.ProfileRow, available: int)
  {
    && |words| >= 5 && words[1] + " " + words[2] == r.name
    && words[3] == Itoa(r.id) && words[4] == Itoa(available) + "/" + Itoa(r.total)
    && InRange(r.id) && InRange(available) && InRange(r.total)
  }

  /** The row of an instance: GPU, name in two words, profile ID and instance ID. */
  ghost predicate ShowsInstance(words: seq<string>, x: M.Instance)
  {
    |words| >= 5 && words[3] == Itoa(x.profile) && words[4] == x.id && InRange(x.profile)
  }

  ghost predicate ShowsProfiles(rows: seq<seq<string>>, g: M.Gpu)
  {
    && |rows| == |g.rows|
    && forall i :: 0 <= i < |rows| ==> ShowsProfile(rows[i], g.rows[i], g.available(g.instances, g.rows[i].id))
  }

  ghost predicate ShowsInstances(rows: seq<seq<string>>, xs: seq<M.Instance>)
  {
    |rows| == |xs| && forall i :: 0 <= i < |rows| ==> ShowsInstance(rows[i], xs[i])
  }

  lemma NoSlash(n: int)
    ensures '/' !in Itoa(n)
  {
  }

  lemma ProfileRead(words: seq<string>, r: M.ProfileRow, available: int)
    requires ShowsProfile(words, r, available)
    ensures StatusOf(words) == Read(M.ProfileStatus(r.id, r.name, available, r.total, []))
    ensures RequestOf(words) == Read(M.ProfileRequest(r.id, r.name, 0))
  {
    AtoiOfItoa(r.id);
    AtoiOfItoa(available);
    AtoiOfItoa(r.total);
    NoSlash(available);
    NoSlash(r.total);
    assert words[4] == Itoa(available) + ['/'] + Itoa(r.total);
    SplitOnFirst(Itoa(available), '/', Itoa(r.total));
    SplitOnNone(Itoa(r.total), '/');
    assert SplitOn(words[4], '/') == [Itoa(available), Itoa(r.total)];
  }

  lemma {:induction false} AllRead<T>(rows: seq<seq<string>>, one: seq<string> -> Reading<T>, xs: seq<T>)
    requires |rows| == |xs| && forall i :: 0 <= i < |rows| ==> one(rows[i]) == Read(xs[i])
    ensures ReadAll(rows, one) == Read(xs)
    decreases |rows|
  {
    if rows != [] {
      AllRead(rows[1..], one, xs[1..]);
      assert xs == [xs[0]] + xs[1..];
    }
  }

  lemma ItoaInjective(m: int, n: int)
    requires InRange(m) && InRange(n) && Itoa(m) == Itoa(n)
    ensures m == n
  {
    AtoiOfItoa(m);
    AtoiOfItoa(n);
  }

  /** Every key of the string map is a number's text, and under it are that profile's identifiers. */
  ghost predicate Groups(m: map<string, seq<string>>, xs: seq<M.Instance>)
  {
    && (forall k :: k in m ==> IsNumber(k))
    && (forall p :: InRange(p) ==> Known(m, Itoa(p)) == M.IdsOf(xs, p))
  }

  ghost predicate IsNumber(k: string) { exists p :: InRange(p) && k == Itoa(p) }

  lemma {:induction false} InstancesRead(rows: seq<seq<string>>, xs: seq<M.Instance>)
    requires ShowsInstances(rows, xs)
    ensures InstanceMap(rows).Read? && Groups(InstanceMap(rows).value, xs)
  {
    if rows == [] {
      assert Groups(map[], xs);
    } else {
      var x := xs[|xs| - 1];
      assert xs == xs[..|xs| - 1] + [x];
      LastShown(rows, xs);
      InstancesRead(rows[..|rows| - 1], xs[..|xs| - 1]);
      NotedGroups(InstanceMap(rows[..|rows| - 1]).value, xs[..|xs| - 1], x);
    }
  }

  lemma LastShown(rows: seq<seq<string>>, xs: seq<M.Instance>)
    requires rows != [] && ShowsInstances(rows, xs)
    ensures ShowsInstances(rows[..|rows| - 1], xs[..|xs| - 1])
    ensures ShowsInstance(rows[|rows| - 1], xs[|xs| - 1])
  {
    var rows', xs' := rows[..|rows| - 1], xs[..|xs| - 1];
    forall i | 0 <= i < |rows'| ensures ShowsInstance(rows'[i], xs'[i]) {
      assert ShowsInstance(rows[i], xs[i]);
    }
  }

  lemma NotedGroups(m: map<string, seq<string>>, xs: seq<M.Instance>, x: M.Instance)
    requires Groups(m, xs) && InRange(x.profile)
    ensures Groups(Noted(m, Itoa(x.profile), x.id), xs + [x])
  {
    var m' := Noted(m, Itoa(x.profile), x.id);
    assert (xs + [x])[..|xs|] == xs;
    assert IsNumber(Itoa(x.profile));
    forall p | InRange(p) ensures Known(m', Itoa(p)) == M.IdsOf(xs + [x], p) {
      if Itoa(p) == Itoa(x.profile) {
        ItoaInjective(p, x.profile);
      }
    }
  }

  lemma {:induction false} NumbersRead(m: map<string, seq<string>>, order: seq<string>)
    requires forall k :: k in order ==> IsNumber(k)
    ensures ByNumber(m, order).Read?
    ensures forall p :: InRange(p) ==> (p in ByNumber(m, order).value <==> Itoa(p) in order)
    ensures forall p :: p in ByNumber(m, order).value ==> InRange(p) && ByNumber(m, order).value[p] == Known(m, Itoa(p))
  {
    if order != [] {
      var init, k := order[..|order| - 1], order[|order| - 1];
      assert order == init + [k];
      NumbersRead(m, init);
      assert k in order && IsNumber(k);
      var p :| InRange(p) && k == Itoa(p);
      AtoiOfItoa(p);
      forall q | InRange(q) && Itoa(q) == k ensures q == p {
        ItoaInjective(q, p);
      }
    }
  }

  /** The numbered map holds exactly the identifiers of each profile. */
  lemma InstanceInfoRead(rows: seq<seq<string>>, xs: seq<M.Instance>, order: seq<string>)
    requires ShowsInstances(rows, xs)
    requires InstanceMap(rows).Read? ==> Enumerates(order, InstanceMap(rows).value.Keys)
    ensures InstanceMap(rows).Read? && ByNumber(InstanceMap(rows).value, order).Read?
    ensures var ids := ByNumber(InstanceMap(rows).value, order).value;
      forall p :: InRange(p) ==> M.IdsOf(xs, p) == if p in ids then ids[p] else []
  {
    InstancesRead(rows, xs);
    var m := InstanceMap(rows).value;
    NumbersRead(m, order);
    forall p | InRange(p) && p !in ByNumber(m, order).value ensures M.IdsOf(xs, p) == [] {
      assert Itoa(p) !in m;
      assert Known(m, Itoa(p)) == [];
    }
  }

  /** The second word of every row is what the list of compute instances shows. */
  lemma TableGivesComputeIds(table: seq<Line>, ids: seq<string>)
    requires AllProper(table) && |WordsOf(table)| == |ids|
    requires forall i :: 0 <= i < |ids| ==> |WordsOf(table)[i]| >= 2 && WordsOf(table)[i][1] == ids[i]
    ensures ReadText(FileText(PrintAll(table)), SecondOf) == Read(ids)
  {
    RowsOfTable(table);
    AllRead(WordsOf(table), SecondOf, ids);
  }

  /** The report before the identifiers are filled in. */
  function Plain(g: M.Gpu): seq<M.ProfileStatus>
  {
    seq(|g.rows|, i requires 0 <= i < |g.rows| => M.RowStatus(g, g.rows[i]).(vgpuIds := []))
  }

  lemma ProfilesRead(rows: seq<seq<string>>, g: M.Gpu)
    requires ShowsProfiles(rows, g)
    ensures ReadAll(rows, StatusOf) == Read(Plain(g))
    ensures ReadAll(rows, RequestOf) == Read(M.InitialSpec(g.rows))
  {
    forall i | 0 <= i < |rows|
      ensures StatusOf(rows[i]) == Read(Plain(g)[i]) && RequestOf(rows[i]) == Read(M.InitialSpec(g.rows)[i])
    {
      ProfileRead(rows[i], g.rows[i], g.available(g.instances, g.rows[i].id));
    }
    AllRead(rows, StatusOf, Plain(g));
    AllRead(rows, RequestOf, M.InitialSpec(g.rows));
  }

  lemma IdsAttached(rows: seq<seq<string>>, g: M.Gpu, ids: map<int, seq<string>>)
    requires ShowsProfiles(rows, g)
    requires forall p :: InRange(p) ==> M.IdsOf(g.instances, p) == if p in ids then ids[p] else []
    ensures WithIds(Plain(g), ids) == M.Report(g)
  {
    forall i | 0 <= i < |g.rows| ensures WithIds(Plain(g), ids)[i] == M.Report(g)[i] {
      assert ShowsProfile(rows[i], g.rows[i], g.available(g.instances, g.rows[i].id));
    }
  }

  /**
   From truthful tables in any layout, with any lines in between and any order of visiting the map,
   the status read is the GPU's report, and the first specification asks for nothing.
   */
  lemma TablesGiveReport(g: M.Gpu, profiles: seq<Line>, instances: seq<Line>, order: seq<string>)
    requires AllProper(profiles) && ShowsProfiles(WordsOf(profiles), g)
    requires AllProper(instances) && ShowsInstances(WordsOf(instances), g.instances)
    requires InstanceMap(WordsOf(instances)).Read? ==> Enumerates(order, InstanceMap(WordsOf(instances)).value.Keys)
    ensures ReadStatus(FileText(PrintAll(profiles)), FileText(PrintAll(instances)), order) == Read(M.Report(g))
    ensures ReadText(FileText(PrintAll(profiles)), RequestOf) == Read(M.InitialSpec(g.rows))
  {
    RowsOfTable(profiles);
    ProfilesRead(WordsOf(profiles), g);
    assert ReadText(FileText(PrintAll(profiles)), StatusOf) == Read(Plain(g));
    RowsOfTable(instances);
    InstanceInfoRead(WordsOf(instances), g.instances, order);
    IdsAttached(WordsOf(profiles), g, ByNumber(InstanceMap(WordsOf(instances)).value, order).value);
  }
}
