/**
 JSON Pointer reference tokens (RFC 6901) as the webhook writes them.
 */
module JsonPointer {
  import opened Text

  /** One pass that replaces `~` by `~0` and `/` by `~1`. */
  function EscapeJSONPointer(s: string): string
  {
    if s == "" then ""
    else (if s[0] == '~' then "~0" else if s[0] == '/' then "~1" else [s[0]]) + EscapeJSONPointer(s[1..])
  }

  /** Section 4 of RFC 6901: first `~1` becomes `/`, then `~0` becomes `~`. */
  function Unescape(token: string): string
  {
    ReplaceAll(ReplaceAll(token, "~1", "/"), "~0", "~")
  }

  /** Section 3 of RFC 6901: no `/`, and every `~` is followed by `0` or `1`. */
  predicate IsReferenceToken(token: string)
  {
    forall i :: 0 <= i < |token| ==> GoodAt(token, i)
  }

  predicate GoodAt(token: string, i: nat)
    requires i < |token|
  {
    && token[i] != '/'
    && (token[i] == '~' ==> i + 1 < |token| && (token[i + 1] == '0' || token[i + 1] == '1'))
  }

  /** The string with only its `~` escaped: what is left after the first of the two replacements. */
  function HalfEscaped(s: string): string
  {
    if s == "" then "" else (if s[0] == '~' then "~0" else [s[0]]) + HalfEscaped(s[1..])
  }

  lemma {:induction false} FirstReplacement(s: string)
    ensures ReplaceAll(EscapeJSONPointer(s), "~1", "/") == HalfEscaped(s)
  {
    if s != "" {
      FirstReplacement(s[1..]);
      var rest := EscapeJSONPointer(s[1..]);
      var all := EscapeJSONPointer(s);
      if s[0] == '~' {
        assert all == "~0" + rest && all[1..] == "0" + rest && ("0" + rest)[1..] == rest;
        ReplaceStep(all, "~1", "/");
        ReplaceStep("0" + rest, "~1", "/");
        assert "~" + ("0" + HalfEscaped(s[1..])) == "~0" + HalfEscaped(s[1..]);
      } else if s[0] == '/' {
        assert all == "~1" + rest && all[2..] == rest;
      } else {
        assert all == [s[0]] + rest && all[1..] == rest;
        ReplaceStep(all, "~1", "/");
      }
    }
  }

  lemma ReplaceStep(s: string, old_: string, new_: string)
    requires |old_| == 2 && s != "" && (s[0] != old_[0] || (|s| >= 2 && s[1] != old_[1]))
    ensures ReplaceAll(s, old_, new_) == [s[0]] + ReplaceAll(s[1..], old_, new_)
  {
    if |s| < |old_| {
      assert s == [s[0]] + s[1..];
    }
  }

  lemma {:induction false} SecondReplacement(s: string)
    ensures ReplaceAll(HalfEscaped(s), "~0", "~") == s
  {
    if s != "" {
      SecondReplacement(s[1..]);
      var rest := HalfEscaped(s[1..]);
      var all := HalfEscaped(s);
      assert s == [s[0]] + s[1..];
      if s[0] == '~' {
        assert all == "~0" + rest && all[2..] == rest;
      } else {
        assert all == [s[0]] + rest && all[1..] == rest;
        ReplaceStep(all, "~0", "~");
      }
    }
  }

  /** Unescaping undoes escaping, for every string. */
  lemma UnescapeEscape(s: string)
    ensures Unescape(EscapeJSONPointer(s)) == s
  {
    FirstReplacement(s);
    SecondReplacement(s);
  }

  /** An escaped string is a single valid reference token. */
  lemma {:induction false} EscapedIsToken(s: string)
    ensures IsReferenceToken(EscapeJSONPointer(s))
  {
    if s != "" {
      EscapedIsToken(s[1..]);
      var rest := EscapeJSONPointer(s[1..]);
      var all := EscapeJSONPointer(s);
      var head := if s[0] == '~' then "~0" else if s[0] == '/' then "~1" else [s[0]];
      assert all == head + rest;
      TokenConcat(head, rest);
    }
  }

  lemma TokenConcat(a: string, b: string)
    requires IsReferenceToken(a) && IsReferenceToken(b)
    ensures IsReferenceToken(a + b)
  {
    forall i | 0 <= i < |a + b| ensures GoodAt(a + b, i) {
      if i < |a| {
        assert GoodAt(a, i);
      } else {
        assert GoodAt(b, i - |a|);
      }
    }
  }

  /** A reference token contains no separator, so it stays one step of a path. */
  lemma TokenHasNoSlash(token: string)
    requires IsReferenceToken(token)
    ensures '/' !in token
  {
    forall i | 0 <= i < |token| ensures token[i] != '/' {
      assert GoodAt(token, i);
    }
  }
}
