/**
 The tables that the GPU tool prints: cutting their lines into elements and reading profiles and
 instances from them.
 */
module MigListing {
  import opened Text
  import M = MigModel

  /** What reading yields: a value, an error, or an index out of range that stops the program. */
  datatype Reading<+T> = Read(value: T) | Bad | Crash

  // ----- numbers -----

  const MAX_INT := 0x7fff_ffff_ffff_ffff

  predicate InRange(n: int) { -MAX_INT - 1 <= n <= MAX_INT }

  function Digits(n: nat): (s: string)
    ensures s != "" && forall c :: c in s ==> '0' <= c <= '9'
  {
    (if n < 10 then "" else Digits(n / 10)) + ['0' + (n % 10) as char]
  }

  /** `strconv.Itoa`. */
  function Itoa(n: int): string { if n < 0 then "-" + Digits(-n) else Digits(n) }

  function Decimal(s: string): Option<nat>
  {
    if s == "" then Some(0)
    else
      var hi, c := Decimal(s[..|s| - 1]), s[|s| - 1];
      if hi.Some? && '0' <= c <= '9' then Some(10 * hi.value + (c as nat - '0' as nat)) else None
  }

  function Signed(digits: string, sign: int): Option<int>
  {
    var n := Decimal(digits);
    if digits != "" && n.Some? && InRange(sign * n.value) then Some(sign * n.value) else None
  }

  /** `strconv.Atoi` on a 64-bit machine. */
  function Atoi(s: string): Option<int>
  {
    if s == "" then None
    else if s[0] == '-' then Signed(s[1..], -1)
    else if s[0] == '+' then Signed(s[1..], 1)
    else Signed(s, 1)
  }

  lemma {:induction false} DecimalOfDigits(n: nat)
    ensures Decimal(Digits(n)) == Some(n)
  {
    var hi := if n < 10 then "" else Digits(n / 10);
    if n >= 10 {
      DecimalOfDigits(n / 10);
    }
    assert Digits(n)[..|Digits(n)| - 1] == hi;
  }

  lemma SignedDigits(n: nat, sign: int)
    requires InRange(sign * n)
    ensures Signed(Digits(n), sign) == Some(sign * n)
  {
    DecimalOfDigits(n);
  }

  /** Reading a number undoes printing it. */
  lemma AtoiOfItoa(n: int)
    requires InRange(n)
    ensures Atoi(Itoa(n)) == Some(n)
  {
    if n < 0 {
      SignedDigits(-n, -1);
      assert Itoa(n)[0] == '-' && Itoa(n)[1..] == Digits(-n);
    } else {
      SignedDigits(n, 1);
      var s := Digits(n);
      assert s[0] in s;
    }
  }

  // ----- lines -----

  /** What the regular expression `\s` matches. */
  predicate IsSpace(c: char) { c in " \t\n\r\U{0C}" }

  /** What `strings.TrimSpace` removes. */
  predicate IsTrimmed(c: char) { IsSpace(c) || c in "\U{0B}\U{85}\U{A0}" }

  function TrimLeft(s: string): string
  {
    if s != "" && IsTrimmed(s[0]) then TrimLeft(s[1..]) else s
  }

  function TrimRight(s: string): string
  {
    if s != "" && IsTrimmed(s[|s| - 1]) then TrimRight(s[..|s| - 1]) else s
  }

  /** Every run of white space becomes a comma. */
  function Collapse(s: string): string
  {
    if s == "" then ""
    else if !IsSpace(s[0]) then [s[0]] + Collapse(s[1..])
    else if |s| > 1 && IsSpace(s[1]) then Collapse(s[1..])
    else [','] + Collapse(s[1..])
  }

  function Elements(line: string): seq<string>
  {
    SplitOn(Collapse(TrimRight(TrimLeft(ReplaceAll(line, "|", "")))), ',')
  }

  /** The scanner hands over a line without its carriage return. */
  function DropCR(line: string): string
  {
    if line != "" && line[|line| - 1] == '\r' then line[..|line| - 1] else line
  }

  const MIG_PREFIX := "MIG"

  function MigLines(lines: seq<string>): seq<string>
  {
    if lines == [] then []
    else
      var line := DropCR(lines[|lines| - 1]);
      MigLines(lines[..|lines| - 1]) + if Contains(line, MIG_PREFIX) then [line] else []
  }

  function ElementsOf(lines: seq<string>): seq<seq<string>>
  {
    seq(|lines|, i requires 0 <= i < |lines| => Elements(lines[i]))
  }

  /** The elements of the lines that matter. */
  function Rows(text: string): seq<seq<string>> { ElementsOf(MigLines(ContentLines(text))) }

  /** The scanner's buffer; a line that does not fit with its line feed is an error. */
  const MAX_TOKEN := 0x1_0000

  predicate Fits(line: string) { |line| < MAX_TOKEN }

  predicate AllFit(lines: seq<string>) { forall i :: 0 <= i < |lines| ==> Fits(lines[i]) }

  predicate Readable(text: string) { AllFit(ContentLines(text)) }

  /** The scanner: all lines, or an error at the first that does not fit. */
  method Scan(input: string) returns (ok: bool, lines: seq<string>)
    ensures lines == ContentLines(input) && ok == AllFit(lines)
  {
    lines := ReadLines(input);
    for k := 0 to |lines|
      invariant AllFit(lines[..k])
    {
      if !Fits(lines[k]) {
        return false, lines;
      }
    }
    assert lines[..|lines|] == lines;
    ok := true;
  }

  method ParseMigInfo(input: string) returns (ok: bool, info: seq<string>)
    ensures ok == Readable(input)
    ensures ok ==> ElementsOf(info) == Rows(input)
  {
    var lines;
    ok, lines := Scan(input);
    info := [];
    for k := 0 to |lines|
      invariant info == MigLines(lines[..k])
    {
      assert lines[..k + 1] == lines[..k] + [lines[k]];
      MigLinesAppend(lines[..k], lines[k]);
      var line := DropCR(lines[k]);
      if Contains(line, MIG_PREFIX) {
        info := info + [line];
      }
    }
    assert lines[..|lines|] == lines;
  }

  lemma MigLinesAppend(lines: seq<string>, line: string)
    ensures MigLines(lines + [line])
      == if Contains(DropCR(line), MIG_PREFIX) then MigLines(lines) + [DropCR(line)] else MigLines(lines)
  {
    assert (lines + [line])[..|lines|] == lines;
  }

  // ----- profiles -----

  datatype Profile = Profile(id: int, name: string, available: string, total: string)

  function ProfileOf(e: seq<string>): Reading<Profile>
  {
    if |e| < 4 then Crash
    else if Atoi(e[3]).None? then Bad
    else if |e| < 5 || |SplitOn(e[4], '/')| < 2 then Crash
    else Read(Profile(Atoi(e[3]).value, e[1] + " " + e[2], SplitOn(e[4], '/')[0], SplitOn(e[4], '/')[1]))
  }

  /** A profile's status, as yet without instances. */
  function StatusOf(e: seq<string>): Reading<M.ProfileStatus>
  {
    match ProfileOf(e)
    case Read(p) =>
      var available, total := Atoi(p.available), Atoi(p.total);
      if available.None? || total.None? then Bad
      else Read(M.ProfileStatus(p.id, p.name, available.value, total.value, []))
    case Bad => Bad
    case Crash => Crash
  }

  function RequestOf(e: seq<string>): Reading<M.ProfileRequest>
  {
    match ProfileOf(e)
    case Read(p) => Read(M.ProfileRequest(p.id, p.name, 0))
    case Bad => Bad
    case Crash => Crash
  }

  /** Reading row by row until one cannot be read. */
  function ReadAll<T>(rows: seq<seq<string>>, one: seq<string> -> Reading<T>): Reading<seq<T>>
    decreases |rows|
  {
    if rows == [] then Read([])
    else
      match one(rows[0])
      case Read(x) => Prepended([x], ReadAll(rows[1..], one))
      case Bad => Bad
      case Crash => Crash
  }

  /** Reading the rows of a text. */
  function ReadText<T>(text: string, one: seq<string> -> Reading<T>): Reading<seq<T>>
  {
    if Readable(text) then ReadAll(Rows(text), one) else Bad
  }

  /** The common loop of the readers below and of the first half of GenerateProfileStatus. */
  method ReadLoop<T>(info: seq<string>, one: seq<string> -> Reading<T>) returns (r: Reading<seq<T>>)
    ensures r == ReadAll(ElementsOf(info), one)
  {
    var xs: seq<T> := [];
    ghost var rows := ElementsOf(info);
    assert rows[0..] == rows;
    NothingPrepended(ReadAll(rows, one));
    for k := 0 to |info|
      invariant ReadAll(rows, one) == Prepended(xs, ReadAll(rows[k..], one))
    {
      assert rows[k..][1..] == rows[k + 1..];
      var x := one(Elements(info[k]));
      match x {
        case Read(v) =>
          PrependedTwice(xs, v, ReadAll(rows[k + 1..], one));
          xs := xs + [v];
        case Bad => return Bad;
        case Crash => return Crash;
      }
    }
    assert rows[|info|..] == [] && xs + [] == xs;
    r := Read(xs);
  }

  function Prepended<T>(xs: seq<T>, r: Reading<seq<T>>): Reading<seq<T>>
  {
    if r.Read? then Read(xs + r.value) else r
  }

  lemma NothingPrepended<T>(r: Reading<seq<T>>)
    ensures Prepended([], r) == r
  {
    if r.Read? {
      assert [] + r.value == r.value;
    }
  }

  lemma PrependedTwice<T>(xs: seq<T>, x: T, r: Reading<seq<T>>)
    ensures Prepended(xs, Prepended([x], r)) == Prepended(xs + [x], r)
  {
    if r.Read? {
      assert xs + ([x] + r.value) == xs + [x] + r.value;
    }
  }

  method GenerateProfileSpec(input: string) returns (r: Reading<seq<M.ProfileRequest>>)
    ensures r == ReadText(input, RequestOf)
  {
    var ok, info := ParseMigInfo(input);
    if !ok {
      return Bad;
    }
    r := ReadLoop(info, RequestOf);
  }

  function SecondOf(e: seq<string>): Reading<string> { if |e| < 2 then Crash else Read(e[1]) }

  method GenerateComputeInstanceList(input: string) returns (r: Reading<seq<string>>)
    ensures r == ReadText(input, SecondOf)
  {
    var ok, info := ParseMigInfo(input);
    if !ok {
      return Bad;
    }
    r := ReadLoop(info, SecondOf);
  }

  // ----- instances -----

  function Known(m: map<string, seq<string>>, key: string): seq<string> { if key in m then m[key] else [] }

  function Noted(m: map<string, seq<string>>, key: string, id: string): map<string, seq<string>>
  {
    m[key := if id in Known(m, key) then Known(m, key) else Known(m, key) + [id]]
  }

  /** The identifiers of every profile, under the profile's text. */
  function InstanceMap(rows: seq<seq<string>>): Reading<map<string, seq<string>>>
  {
    if rows == [] then Read(map[])
    else
      var before, e := InstanceMap(rows[..|rows| - 1]), rows[|rows| - 1];
      if !before.Read? then before
      else if |e| < 5 then Crash
      else Read(Noted(before.value, e[3], e[4]))
  }

  /** The same under the profile's number; of two texts for one number the later in `order` counts. */
  function ByNumber(m: map<string, seq<string>>, order: seq<string>): Reading<map<int, seq<string>>>
  {
    if order == [] then Read(map[])
    else
      var before, k := ByNumber(m, order[..|order| - 1]), order[|order| - 1];
      if !before.Read? then before
      else if Atoi(k).None? then Bad
      else Read(before.value[Atoi(k).value := Known(m, k)])
  }

  method GenerateProfileInstanceMap(info: seq<string>) returns (r: Reading<map<string, seq<string>>>)
    ensures r == InstanceMap(ElementsOf(info))
  {
    var profileMap: map<string, seq<string>> := map[];
    ghost var rows := ElementsOf(info);
    for k := 0 to |info|
      invariant InstanceMap(rows[..k]) == Read(profileMap)
    {
      assert rows[..k + 1][..k] == rows[..k];
      var elements := Elements(info[k]);
      if |elements| < 5 {
        NoWayBack(rows, k + 1);
        return Crash;
      }
      var ids := Known(profileMap, elements[3]);
      if elements[4] !in ids {
        ids := ids + [elements[4]];
      }
      profileMap := profileMap[elements[3] := ids];
    }
    assert rows[..|rows|] == rows;
    r := Read(profileMap);
  }

  lemma {:induction false} NoWayBack(rows: seq<seq<string>>, k: nat)
    requires k <= |rows| && !InstanceMap(rows[..k]).Read?
    ensures InstanceMap(rows) == InstanceMap(rows[..k])
  {
    if k == |rows| {
      assert rows[..k] == rows;
    } else {
      assert rows[..|rows| - 1][..k] == rows[..k];
      NoWayBack(rows[..|rows| - 1], k);
    }
  }

  /** `order` is the order in which the string map is visited. */
  method GenerateMIGInstanceInfo(instanceInfo: string, order: seq<string>) returns (r: Reading<map<int, seq<string>>>)
    ensures r == InstanceInfo(instanceInfo, order)
  {
    var ok, info := ParseMigInfo(instanceInfo);
    if !ok {
      return Bad;
    }
    var byText := GenerateProfileInstanceMap(info);
    match byText {
      case Bad => return Bad;
      case Crash => return Crash;
      case Read(m) =>
        var ids: map<int, seq<string>> := map[];
        for k := 0 to |order|
          invariant ByNumber(m, order[..k]) == Read(ids)
        {
          assert order[..k + 1][..k] == order[..k];
          if Atoi(order[k]).None? {
            StaysBad(m, order, k + 1);
            return Bad;
          }
          ids := ids[Atoi(order[k]).value := Known(m, order[k])];
        }
        assert order[..|order|] == order;
        return Read(ids);
    }
  }

  lemma {:induction false} StaysBad(m: map<string, seq<string>>, order: seq<string>, k: nat)
    requires k <= |order| && ByNumber(m, order[..k]) == Bad
    ensures ByNumber(m, order) == Bad
  {
    if k == |order| {
      assert order[..k] == order;
    } else {
      assert order[..|order| - 1][..k] == order[..k];
      StaysBad(m, order[..|order| - 1], k);
    }
  }

  function InstanceInfo(text: string, order: seq<string>): Reading<map<int, seq<string>>>
  {
    if !Readable(text) then Bad
    else
      match InstanceMap(Rows(text))
      case Read(m) => ByNumber(m, order)
      case Bad => Bad
      case Crash => Crash
  }

  // ----- the status -----

  function WithIds(ps: seq<M.ProfileStatus>, ids: map<int, seq<string>>): seq<M.ProfileStatus>
  {
    seq(|ps|, i requires 0 <= i < |ps| => if ps[i].id in ids then ps[i].(vgpuIds := ids[ps[i].id]) else ps[i])
  }

  function ReadStatus(profileInfo: string, instanceInfo: string, order: seq<string>): Reading<seq<M.ProfileStatus>>
  {
    match ReadText(profileInfo, StatusOf)
    case Bad => Bad
    case Crash => Crash
    case Read(ps) =>
      match InstanceInfo(instanceInfo, order)
      case Bad => Bad
      case Crash => Crash
      case Read(ids) => Read(WithIds(ps, ids))
  }

  method GenerateProfileStatus(profileInfo: string, instanceInfo: string, order: seq<string>)
    returns (r: Reading<seq<M.ProfileStatus>>)
    ensures r == ReadStatus(profileInfo, instanceInfo, order)
  {
    var ok, info := ParseMigInfo(profileInfo);
    if !ok {
      return Bad;
    }
    var statuses := ReadLoop(info, StatusOf);
    if !statuses.Read? {
      return statuses;
    }
    var instances := GenerateMIGInstanceInfo(instanceInfo, order);
    match instances {
      case Bad => return Bad;
      case Crash => return Crash;
      case Read(ids) =>
        var ps := AttachIds(statuses.value, ids);
        return Read(ps);
    }
  }

  method AttachIds(statuses: seq<M.ProfileStatus>, ids: map<int, seq<string>>) returns (ps: seq<M.ProfileStatus>)
    ensures ps == WithIds(statuses, ids)
  {
    ps := statuses;
    for k := 0 to |ps|
      invariant |ps| == |statuses|
      invariant forall i :: 0 <= i < k ==> ps[i] == WithIds(statuses, ids)[i]
      invariant forall i :: k <= i < |ps| ==> ps[i] == statuses[i]
    {
      if ps[k].id in ids {
        ps := ps[k := ps[k].(vgpuIds := ids[ps[k].id])];
      }
    }
  }
}
