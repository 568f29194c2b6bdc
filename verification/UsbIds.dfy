/**
 The usb.ids parser: line splitting, the sticky kind, and the three-level trees it builds out of
 shared objects. Objects live in sequences and are named by position, so that two references to
 the same object are visible as equal numbers.
 */
module UsbIds {
  import opened Text

  datatype Error = LineTooLong | MalformedLine | MalformedId | NoParent | TooDeep

  datatype Result<+T> = Ok(value: T) | Err(error: Error)

  // ----- three-level trees built from shared objects -----

  /** A product (with interface names) or a subclass (with protocol names). */
  datatype Mid = Mid(name: string, leaves: map<nat, string>)

  /** A vendor or a class; children are references into the middle objects. */
  datatype Top = Top(name: string, children: map<nat, nat>)
  {
    /** All children are among the first `n` middle objects. */
    predicate Below(n: nat)
    {
      forall c :: c in children ==> children[c] < n
    }
  }

  /**
   `top` and `mid` refer to the objects that were parsed last, `roots` is the returned map, and
   `tops` and `mids` are all objects ever allocated.
   */
  datatype Forest = Forest(top: Option<nat>, mid: Option<nat>, roots: map<nat, nat>, tops: seq<Top>, mids: seq<Mid>)
  {
    predicate Valid()
    {
      && (top.Some? ==> top.value < |tops|)
      && (mid.Some? ==> mid.value < |mids|)
      && (forall id :: id in roots ==> roots[id] < |tops|)
      && (forall t :: 0 <= t < |tops| ==> tops[t].Below(|mids|))
    }
  }

  const EMPTY := Forest(None, None, map[], [], [])

  datatype Record = Record(level: nat, id: nat, name: string)

  /** parseVendor and parseClass: one line below level 2 is attached to the object parsed last. */
  function Insert(f: Forest, r: Record): (res: Result<Forest>)
    requires f.Valid()
    ensures res.Ok? ==> res.value.Valid()
  {
    if r.level == 0 then
      Ok(f.(top := Some(|f.tops|), roots := f.roots[r.id := |f.tops|], tops := f.tops + [Top(r.name, map[])]))
    else if r.level == 1 then
      if f.top.None? then Err(NoParent)
      else
        var t := f.top.value;
        var children := f.tops[t].children[r.id := |f.mids|];
        Ok(f.(mid := Some(|f.mids|), tops := f.tops[t := Top(f.tops[t].name, children)],
              mids := f.mids + [Mid(r.name, map[])]))
    else if r.level == 2 then
      if f.mid.None? then Err(NoParent)
      else
        var m := f.mid.value;
        Ok(f.(mids := f.mids[m := Mid(f.mids[m].name, f.mids[m].leaves[r.id := r.name])]))
    else Err(TooDeep)
  }

  // ----- lines -----

  /** Position of the first two adjacent spaces, or `|s|`. */
  function DoubleSpace(s: string): (i: nat)
    ensures i <= |s|
    ensures i < |s| ==> i + 1 < |s| && s[i] == ' ' && s[i + 1] == ' '
  {
    if |s| < 2 then |s| else if s[0] == ' ' && s[1] == ' ' then 0 else 1 + DoubleSpace(s[1..])
  }

  /** Number of leading tabs. */
  function Tabs(s: string): (n: nat)
    ensures n <= |s|
  {
    if s != "" && s[0] == '\t' then 1 + Tabs(s[1..]) else 0
  }

  /** `strconv.ParseUint(s, 16, 16)`. */
  function ParseUint16(s: string): Option<nat>
  {
    var n := HexNumber(s);
    if s == "" || n.None? || n.value > 0xFFFF then None else n
  }

  /** What a line gives once its tabs and its name are taken off: a kind marker (or "") and an identifier. */
  function FromPiece(level: nat, piece: string, name: string): Result<(string, Record)>
  {
    var k := IndexOf(piece, ' ');
    var kind := if k < |piece| then piece[..k] else "";
    var digits := if k < |piece| then piece[k + 1..] else piece;
    var id := ParseUint16(digits);
    if id.None? then Err(MalformedId) else Ok((kind, Record(level, id.value, name)))
  }

  /** The kind marker and the record of a line. */
  function SplitLine(s: string): Result<(string, Record)>
  {
    var i := DoubleSpace(s);
    if i == |s| then Err(MalformedLine)
    else
      var level := Tabs(s[..i]);
      FromPiece(level, s[..i][level..], s[i + 2..])
  }

  datatype State = State(kind: string, vendors: Forest, classes: Forest)
  {
    predicate Valid() { vendors.Valid() && classes.Valid() }
  }

  predicate Skipped(line: string)
  {
    line == "" || line[0] == '#'
  }

  /** One line: a kind marker sticks until the next one; records of other kinds than "" and "C" are dropped. */
  function Feed(st: State, line: string): (res: Result<State>)
    requires st.Valid()
    ensures res.Ok? ==> res.value.Valid()
  {
    if Skipped(line) then Ok(st)
    else
      var parsed := SplitLine(line);
      if parsed.Err? then Err(parsed.error)
      else
        var kind := if parsed.value.0 != "" then parsed.value.0 else st.kind;
        var r := parsed.value.1;
        if kind == "" then
          var f := Insert(st.vendors, r);
          if f.Ok? then Ok(State(kind, f.value, st.classes)) else Err(f.error)
        else if kind == "C" then
          var f := Insert(st.classes, r.(id := r.id % 256));
          if f.Ok? then Ok(State(kind, st.vendors, f.value)) else Err(f.error)
        else Ok(st.(kind := kind))
  }

  function FeedAll(st: State, lines: seq<string>): (res: Result<State>)
    requires st.Valid()
    ensures res.Ok? ==> res.value.Valid()
  {
    if lines == [] then Ok(st)
    else
      var before := FeedAll(st, lines[..|lines| - 1]);
      if before.Ok? then Feed(before.value, lines[|lines| - 1]) else before
  }

  // ----- the reader -----

  const READER_SIZE := 512

  predicate EndsWithCR(s: string) { s != "" && s[|s| - 1] == '\r' }

  /** `bufio.Reader.ReadLine` on a non-empty rest: the line and what follows it. */
  function ReadLine(text: string): (res: Result<(string, string)>)
    requires text != ""
    ensures res.Ok? ==> |res.value.1| < |text|
  {
    var i := IndexOf(text, '\n');
    if i >= READER_SIZE then Err(LineTooLong)
    else if i == |text| then Ok((text, ""))
    else
      var line := text[..i];
      Ok((if EndsWithCR(line) then line[..i - 1] else line, text[i + 1..]))
  }

  function ParseText(st: State, text: string): (res: Result<State>)
    requires st.Valid()
    ensures res.Ok? ==> res.value.Valid()
    decreases |text|
  {
    if text == "" then Ok(st)
    else
      var read := ReadLine(text);
      if read.Err? then Err(read.error)
      else
        var next := Feed(st, read.value.0);
        if next.Err? then next else ParseText(next.value, read.value.1)
  }

  // ----- the maps a caller sees -----

  datatype Tree = Tree(name: string, children: map<nat, Mid>)

  function ChildTrees(f: Forest, children: map<nat, nat>): map<nat, Mid>
    requires Top("", children).Below(|f.mids|)
  {
    map c | c in children :: f.mids[children[c]]
  }

  /** The returned map with all references followed. */
  function Resolve(f: Forest): map<nat, Tree>
    requires f.Valid()
  {
    map id | id in f.roots :: Tree(f.tops[f.roots[id]].name, ChildTrees(f, f.tops[f.roots[id]].children))
  }

  // ----- the parser object -----

  class Parser {
    var vendor: Option<nat>
    var device: Option<nat>
    var class_: Option<nat>
    var subclass: Option<nat>
    var vendors: map<nat, nat>
    var classes: map<nat, nat>
    var vendorObjects: seq<Top>
    var productObjects: seq<Mid>
    var classObjects: seq<Top>
    var subclassObjects: seq<Mid>

    ghost function Vendors(): Forest
      reads this
    {
      Forest(vendor, device, vendors, vendorObjects, productObjects)
    }

    ghost function Classes(): Forest
      reads this
    {
      Forest(class_, subclass, classes, classObjects, subclassObjects)
    }

    ghost predicate Valid()
      reads this
    {
      Vendors().Valid() && Classes().Valid()
    }

    constructor ()
      ensures Valid() && Vendors() == EMPTY && Classes() == EMPTY
    {
      vendor, device, class_, subclass := None, None, None, None;
      vendors, classes := map[], map[];
      vendorObjects, productObjects, classObjects, subclassObjects := [], [], [], [];
    }

    method Split(s: string) returns (res: Result<(string, Record)>)
      ensures res == SplitLine(s)
    {
      var i := DoubleSpace(s);
      if i == |s| {
        return Err(MalformedLine);
      }
      var name := s[i + 2..];
      var level, piece := 0, s[..i];
      while |piece| > 0 && piece[0] == '\t'
        invariant level + |piece| == i
        invariant piece == s[..i][level..]
        invariant Tabs(s[..i]) == level + Tabs(piece)
      {
        level, piece := level + 1, piece[1..];
      }
      var kind := "";
      var k := IndexOf(piece, ' ');
      if k < |piece| {
        kind, piece := piece[..k], piece[k + 1..];
      }
      var id := ParseUint16(piece);
      if id.None? {
        return Err(MalformedId);
      }
      return Ok((kind, Record(level, id.value, name)));
    }

    method ParseVendor(r: Record) returns (error: Option<Error>)
      requires Valid()
      modifies this`vendor, this`device, this`vendors, this`vendorObjects, this`productObjects
      ensures Valid()
      ensures match Insert(old(Vendors()), r) {
        case Ok(f) => error == None && Vendors() == f
        case Err(e) => error == Some(e) && Vendors() == old(Vendors())
      }
    {
      if r.level == 0 {
        vendor := Some(|vendorObjects|);
        vendors := vendors[r.id := |vendorObjects|];
        vendorObjects := vendorObjects + [Top(r.name, map[])];
      } else if r.level == 1 {
        if vendor == None {
          return Some(NoParent);
        }
        device := Some(|productObjects|);
        var v := vendorObjects[vendor.value];
        vendorObjects := vendorObjects[vendor.value := Top(v.name, v.children[r.id := |productObjects|])];
        productObjects := productObjects + [Mid(r.name, map[])];
      } else if r.level == 2 {
        if device == None {
          return Some(NoParent);
        }
        var d := productObjects[device.value];
        productObjects := productObjects[device.value := Mid(d.name, d.leaves[r.id := r.name])];
      } else {
        return Some(TooDeep);
      }
      return None;
    }

    method ParseClass(r: Record) returns (error: Option<Error>)
      requires Valid()
      modifies this`class_, this`subclass, this`classes, this`classObjects, this`subclassObjects
      ensures Valid()
      ensures match Insert(old(Classes()), r.(id := r.id % 256)) {
        case Ok(f) => error == None && Classes() == f
        case Err(e) => error == Some(e) && Classes() == old(Classes())
      }
    {
      var id := r.id % 256;
      if r.level == 0 {
        class_ := Some(|classObjects|);
        classes := classes[id := |classObjects|];
        classObjects := classObjects + [Top(r.name, map[])];
      } else if r.level == 1 {
        if class_ == None {
          return Some(NoParent);
        }
        subclass := Some(|subclassObjects|);
        var c := classObjects[class_.value];
        classObjects := classObjects[class_.value := Top(c.name, c.children[id := |subclassObjects|])];
        subclassObjects := subclassObjects + [Mid(r.name, map[])];
      } else if r.level == 2 {
        if subclass == None {
          return Some(NoParent);
        }
        var c := subclassObjects[subclass.value];
        subclassObjects := subclassObjects[subclass.value := Mid(c.name, c.leaves[id := r.name])];
      } else {
        return Some(TooDeep);
      }
      return None;
    }

    /** Parse a whole file; on success the parser's maps hold the result. */
    method ParseIDs(text: string) returns (error: Option<Error>)
      requires Valid()
      modifies this
      ensures Valid()
      ensures match ParseText(State("", old(Vendors()), old(Classes())), text) {
        case Ok(st) => error == None && Vendors() == st.vendors && Classes() == st.classes
        case Err(e) => error == Some(e)
      }
    {
      var kind, rest := "", text;
      ghost var goal := ParseText(State("", Vendors(), Classes()), text);
      while rest != ""
        invariant Valid()
        invariant goal == ParseText(State(kind, Vendors(), Classes()), rest)
        decreases |rest|
      {
        var read := ReadLine(rest);
        if read.Err? {
          return Some(read.error);
        }
        var line := read.value.0;
        rest := read.value.1;
        if !(line == "" || line[0] == '#') {
          var parsed := Split(line);
          if parsed.Err? {
            return Some(parsed.error);
          }
          if parsed.value.0 != "" {
            kind := parsed.value.0;
          }
          if kind == "" {
            error := ParseVendor(parsed.value.1);
          } else if kind == "C" {
            error := ParseClass(parsed.value.1);
          } else {
            error := None;
          }
          if error != None {
            return;
          }
        }
      }
      return None;
    }
  }
}
