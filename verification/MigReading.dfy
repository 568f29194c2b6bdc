/**
 Exactly when the tables of the GPU tool can be read, and which error or crash it is otherwise.
 */
module MigReading {
  import opened Text
  import opened MigListing

  // ----- numbers -----

  predicate AllDigits(s: string) { forall i :: 0 <= i < |s| ==> '0' <= s[i] <= '9' }

  /** The value of a row of decimal digits. */
  function Value(s: string): int
  {
    if s == "" then 0 else 10 * Value(s[..|s| - 1]) + (s[|s| - 1] as int - '0' as int)
  }

  lemma {:induction false} DecimalExactly(s: string)
    ensures Decimal(s).Some? <==> AllDigits(s)
    ensures Decimal(s).Some? ==> Decimal(s).value == Value(s)
  {
    if s != "" {
      var init := s[..|s| - 1];
      DecimalExactly(init);
      assert forall i :: 0 <= i < |init| ==> init[i] == s[i];
    }
  }

  /** The digits of a text with an optional sign, and what they stand for. */
  predicate Numeral(s: string, n: int)
  {
    || (s != "" && AllDigits(s) && n == Value(s))
    || (|s| > 1 && s[0] == '+' && AllDigits(s[1..]) && n == Value(s[1..]))
    || (|s| > 1 && s[0] == '-' && AllDigits(s[1..]) && n == -Value(s[1..]))
  }

  /** A text is read as a number if and only if it is a numeral for it within 64 bits. */
  lemma AtoiExactly(s: string, n: int)
    ensures Atoi(s) == Some(n) <==> Numeral(s, n) && -0x8000_0000_0000_0000 <= n < 0x8000_0000_0000_0000
  {
    if s != "" {
      DecimalExactly(s);
      DecimalExactly(s[1..]);
    }
  }

  ghost predicate IsNumber(s: string)
  {
    exists n :: Numeral(s, n) && -0x8000_0000_0000_0000 <= n < 0x8000_0000_0000_0000
  }

  lemma NumberExactly(s: string)
    ensures Atoi(s).Some? <==> IsNumber(s)
  {
    if Atoi(s).Some? {
      AtoiExactly(s, Atoi(s).value);
    }
    if IsNumber(s) {
      var n :| Numeral(s, n) && -0x8000_0000_0000_0000 <= n < 0x8000_0000_0000_0000;
      AtoiExactly(s, n);
    }
  }

  // ----- profile rows -----

  predicate HasSlash(s: string) { '/' in s }

  lemma SplitTwice(s: string)
    ensures |SplitOn(s, '/')| >= 2 <==> HasSlash(s)
  {
    var i := IndexOf(s, '/');
    if i == |s| {
      assert s[..i] == s;
    }
  }

  /** A row is a profile if it has five elements, a number and a slash; else it is an error or a crash. */
  lemma ProfileExactly(e: seq<string>)
    ensures ProfileOf(e).Bad? <==> |e| >= 4 && !IsNumber(e[3])
    ensures ProfileOf(e).Crash? <==> |e| < 4 || (IsNumber(e[3]) && (|e| == 4 || !HasSlash(e[4])))
    ensures ProfileOf(e).Read? ==>
      ProfileOf(e).value.name == e[1] + " " + e[2] && Atoi(e[3]) == Some(ProfileOf(e).value.id)
  {
    if |e| >= 4 {
      NumberExactly(e[3]);
    }
    if |e| >= 5 {
      SplitTwice(e[4]);
    }
  }

  /** Reading its status can fail in one more way: one of the parts around the slash is no number. */
  lemma StatusExactly(e: seq<string>)
    ensures StatusOf(e).Crash? <==> ProfileOf(e).Crash?
    ensures StatusOf(e).Read? <==>
      ProfileOf(e).Read? && IsNumber(ProfileOf(e).value.available) && IsNumber(ProfileOf(e).value.total)
    ensures StatusOf(e).Read? ==>
      && Atoi(ProfileOf(e).value.available) == Some(StatusOf(e).value.available)
      && Atoi(ProfileOf(e).value.total) == Some(StatusOf(e).value.total)
  {
    if ProfileOf(e).Read? {
      NumberExactly(ProfileOf(e).value.available);
      NumberExactly(ProfileOf(e).value.total);
    }
  }

  // ----- rows of a table -----

  /** The first row that cannot be read. */
  ghost predicate FirstUnread<T>(rows: seq<seq<string>>, one: seq<string> -> Reading<T>, i: nat)
  {
    i < |rows| && !one(rows[i]).Read? && forall j :: 0 <= j < i ==> one(rows[j]).Read?
  }

  /** All rows are read, or the first that cannot be read decides what happens. */
  lemma {:induction false} ReadAllExactly<T>(rows: seq<seq<string>>, one: seq<string> -> Reading<T>)
    ensures var r := ReadAll(rows, one);
      if r.Read? then
        |r.value| == |rows| && forall i :: 0 <= i < |rows| ==> one(rows[i]) == Read(r.value[i])
      else
        exists i: nat :: FirstUnread(rows, one, i) && (r.Bad? <==> one(rows[i]).Bad?)
    decreases |rows|
  {
    if rows != [] {
      if one(rows[0]).Read? {
        ReadAllExactly(rows[1..], one);
        if !ReadAll(rows[1..], one).Read? {
          var i: nat :| FirstUnread(rows[1..], one, i) && (ReadAll(rows[1..], one).Bad? <==> one(rows[1..][i]).Bad?);
          FirstLater(rows, one, i);
        }
      } else {
        assert FirstUnread(rows, one, 0);
      }
    }
  }

  lemma FirstLater<T>(rows: seq<seq<string>>, one: seq<string> -> Reading<T>, i: nat)
    requires rows != [] && one(rows[0]).Read? && FirstUnread(rows[1..], one, i)
    ensures FirstUnread(rows, one, i + 1)
  {
    forall j | 0 <= j < i + 1 ensures one(rows[j]).Read? {
      if j > 0 {
        assert rows[1..][j - 1] == rows[j];
      }
    }
  }

  // ----- instance rows -----

  /** Reading instances crashes if and only if a row has fewer than five elements, and never fails otherwise. */
  lemma {:induction false} InstanceMapExactly(rows: seq<seq<string>>)
    ensures InstanceMap(rows).Crash? <==> exists i :: 0 <= i < |rows| && |rows[i]| < 5
    ensures !InstanceMap(rows).Bad?
    ensures InstanceMap(rows).Read? ==>
      forall k :: k in InstanceMap(rows).value <==> exists i :: 0 <= i < |rows| && rows[i][3] == k
  {
    if rows != [] {
      var init, e := rows[..|rows| - 1], rows[|rows| - 1];
      InstanceMapExactly(init);
      assert forall i :: 0 <= i < |init| ==> init[i] == rows[i];
    }
  }

  /** Numbering them is an error if and only if a profile's text is no number. */
  lemma {:induction false} ByNumberExactly(m: map<string, seq<string>>, order: seq<string>)
    ensures ByNumber(m, order).Bad? <==> exists i :: 0 <= i < |order| && !IsNumber(order[i])
    ensures !ByNumber(m, order).Crash?
  {
    if order != [] {
      var init, k := order[..|order| - 1], order[|order| - 1];
      ByNumberExactly(m, init);
      NumberExactly(k);
      assert forall i :: 0 <= i < |init| ==> init[i] == order[i];
    }
  }

  // ----- the whole status -----

  /** Every line has less than 64 KiB. */
  predicate ShortLines(text: string)
  {
    forall i :: 0 <= i < |ContentLines(text)| ==> |ContentLines(text)[i]| < 65536
  }

  /** The profile table is read first: its error or crash decides, and only then the instance table's. */
  lemma StatusErrorsExactly(profileInfo: string, instanceInfo: string, order: seq<string>)
    ensures var ps := ReadAll(Rows(profileInfo), StatusOf);
      var r, xs := ReadStatus(profileInfo, instanceInfo, order), Rows(instanceInfo);
      && (r.Read? <==>
        (ShortLines(profileInfo) && ps.Read? && ShortLines(instanceInfo) && AllLong(xs) && AllNumbers(order)))
      && (r.Crash? <==>
        (ShortLines(profileInfo) && (ps.Crash? || (ps.Read? && ShortLines(instanceInfo) && !AllLong(xs)))))
  {
    var xs := Rows(instanceInfo);
    InstanceMapExactly(xs);
    if InstanceMap(xs).Read? {
      ByNumberExactly(InstanceMap(xs).value, order);
    }
    ShortIsReadable(profileInfo);
    ShortIsReadable(instanceInfo);
  }

  predicate AllLong(rows: seq<seq<string>>) { forall i :: 0 <= i < |rows| ==> |rows[i]| >= 5 }

  ghost predicate AllNumbers(keys: seq<string>) { forall i :: 0 <= i < |keys| ==> IsNumber(keys[i]) }

  lemma ShortIsReadable(text: string)
    ensures Readable(text) <==> ShortLines(text)
  {
    var lines := ContentLines(text);
    assert forall i :: 0 <= i < |lines| ==> (Fits(lines[i]) <==> |lines[i]| < 65536);
  }
}
