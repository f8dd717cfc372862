/** The string helpers of src/js/utils/helpers.js: `norm` for filter values and the
    HTML escapers `esc` and `escAttr` used when the project modal builds its markup.
    src/js/main.js (lines 529-540) and src/main.js (lines 473-484) hold verbatim copies
    of `esc`/`escAttr`, and both monoliths define `norm` the same way. */
module Helpers {
  import opened Wrappers
  import opened Text

  // ---------------------------------------------------------------------------
  // norm

  /** `norm(s) = (s || "").toLowerCase().trim()`; a missing value and `""` are both falsy. */
  function Norm(s: Option<string>): (r: string)
    ensures s.None? ==> r == []
    ensures s.Some? ==> |r| <= |s.value|
  {
    match s
    case None => []
    case Some(x) => Trim(LowerStr(x))
  }

  /** A normalised value has no upper-case letter and no whitespace at either end,
      and a missing or empty value normalises to "". */
  lemma {:induction false} NormShape(s: Option<string>)
    ensures var r := Norm(s);
      && (forall i :: 0 <= i < |r| ==> !IsUpperLetter(r[i]))
      && (r == [] || (!IsSpace(r[0]) && !IsSpace(r[|r| - 1])))
      && (s == None || s == Some([]) ==> r == [])
  {
    if s.Some? {
      var l := LowerStr(s.value);
      TrimShape(l);
      var r, a := Trim(l), TrimOffset(l);
      forall i | 0 <= i < |r| ensures !IsUpperLetter(r[i]) {
        assert r[i] == l[a + i];
      }
    }
  }

  /** Normalising twice is normalising once. */
  lemma {:induction false} NormIdempotent(s: Option<string>)
    ensures Norm(Some(Norm(s))) == Norm(s)
  {
    NormShape(s);
    var r := Norm(s);
    LowerStrIdentity(r);
    TrimIdentity(r);
  }

  // ---------------------------------------------------------------------------
  // esc / escAttr

  /** The five characters `esc` rewrites: `/[&<>"']/`. */
  predicate IsSpecial(c: char) {
    c == '&' || c == '<' || c == '>' || c == '"' || c == '\''
  }

  /** The replacement table of `esc`. */
  function EscChar(c: char): string {
    if c == '&' then "&amp;"
    else if c == '<' then "&lt;"
    else if c == '>' then "&gt;"
    else if c == '"' then "&quot;"
    else if c == '\'' then "&#39;"
    else [c]
  }

  /** `esc(s)`: every special character replaced by its entity, everything else copied. */
  function Esc(s: string): (r: string)
    ensures |r| >= |s|
    ensures r == [] <==> s == []
  {
    if s == [] then [] else EscChar(s[0]) + Esc(s[1..])
  }

  /** `escAttr(s) = esc(s).replace(/"/g, "&quot;")`. */
  function EscAttr(s: string): (r: string)
    ensures |r| >= |s|
  {
    ReplaceQuotes(Esc(s))
  }

  /** `t.replace(/"/g, "&quot;")`. */
  function ReplaceQuotes(t: string): (r: string)
    ensures |r| >= |t|
  {
    if t == [] then [] else (if t[0] == '"' then "&quot;" else [t[0]]) + ReplaceQuotes(t[1..])
  }

  /** `t` begins with one of the five entities `esc` writes. */
  predicate StartsEntity(t: string) {
    "&amp;" <= t || "&lt;" <= t || "&gt;" <= t || "&quot;" <= t || "&#39;" <= t
  }

  /** Safe markup text: no `<`, `>`, `"` or `'`, and every `&` begins an entity. */
  predicate Safe(r: string) {
    forall i :: 0 <= i < |r| ==>
      r[i] != '<' && r[i] != '>' && r[i] != '"' && r[i] != '\''
      && (r[i] == '&' ==> StartsEntity(r[i..]))
  }

  lemma {:induction false} SafeAppend(x: string, y: string)
    requires Safe(x) && Safe(y)
    ensures Safe(x + y)
  {
    var r := x + y;
    forall i | 0 <= i < |r|
      ensures r[i] != '<' && r[i] != '>' && r[i] != '"' && r[i] != '\''
      ensures r[i] == '&' ==> StartsEntity(r[i..])
    {
      if i < |x| {
        assert r[i] == x[i];
        assert r[i..] == x[i..] + y;
      } else {
        assert r[i] == y[i - |x|];
        assert r[i..] == y[i - |x|..];
      }
    }
  }

  /** The output of `esc` is safe markup text. */
  lemma {:induction false} EscSafe(s: string)
    ensures Safe(Esc(s))
  {
    if s != [] {
      var e := EscChar(s[0]);
      assert Safe(e) by {
        if IsSpecial(s[0]) {
          assert e[0] == '&' && e[0..] == e;
        }
      }
      EscSafe(s[1..]);
      SafeAppend(e, Esc(s[1..]));
    }
  }

  /** Decodes the five entities `esc` writes and copies everything else. */
  function Unescape(t: string): string
    decreases |t|
  {
    if t == [] then []
    else if "&amp;" <= t then "&" + Unescape(t[5..])
    else if "&lt;" <= t then "<" + Unescape(t[4..])
    else if "&gt;" <= t then ">" + Unescape(t[4..])
    else if "&quot;" <= t then "\"" + Unescape(t[6..])
    else if "&#39;" <= t then "'" + Unescape(t[5..])
    else [t[0]] + Unescape(t[1..])
  }

  lemma {:induction false} UnescapeEscChar(c: char, rest: string)
    ensures Unescape(EscChar(c) + rest) == [c] + Unescape(rest)
  {
    var t := EscChar(c) + rest;
    if IsSpecial(c) {
      assert EscChar(c) <= t;
      assert t[|EscChar(c)|..] == rest;
      if c == '&' {
        assert "&amp;" <= t;
      } else if c == '<' {
        assert !("&amp;" <= t) by { assert t[1] == 'l'; }
      } else if c == '>' {
        assert !("&amp;" <= t) && !("&lt;" <= t) by { assert t[1] == 'g'; }
      } else if c == '"' {
        assert !("&amp;" <= t) && !("&lt;" <= t) && !("&gt;" <= t) by { assert t[1] == 'q'; }
      } else {
        assert !("&amp;" <= t) && !("&lt;" <= t) && !("&gt;" <= t) && !("&quot;" <= t) by { assert t[1] == '#'; }
      }
    } else {
      assert t[0] == c && t[1..] == rest;
      assert !("&amp;" <= t) && !("&lt;" <= t) && !("&gt;" <= t) by {
        assert t[0] != '&';
      }
      assert !("&quot;" <= t) && !("&#39;" <= t) by {
        assert t[0] != '&';
      }
    }
  }

  /** Decoding undoes `esc`. */
  lemma {:induction false} UnescapeEsc(s: string)
    ensures Unescape(Esc(s)) == s
  {
    if s != [] {
      UnescapeEscChar(s[0], Esc(s[1..]));
      UnescapeEsc(s[1..]);
    }
  }

  /** Different strings escape differently. */
  lemma {:induction false} EscInjective(a: string, b: string)
    requires Esc(a) == Esc(b)
    ensures a == b
  {
    UnescapeEsc(a);
    UnescapeEsc(b);
  }

  lemma {:induction false} ReplaceQuotesIdentity(t: string)
    requires forall i :: 0 <= i < |t| ==> t[i] != '"'
    ensures ReplaceQuotes(t) == t
  {
    if t != [] {
      assert t[0] != '"';
      ReplaceQuotesIdentity(t[1..]);
    }
  }

  /** `escAttr` is `esc`: after `esc` there is no `"` left for the second
      replacement to find. */
  lemma {:induction false} EscAttrIsEsc(s: string)
    ensures EscAttr(s) == Esc(s)
  {
    EscSafe(s);
    ReplaceQuotesIdentity(Esc(s));
  }

  lemma {:induction false} EscLength(s: string)
    ensures |Esc(s)| >= |s|
    ensures (exists i :: 0 <= i < |s| && IsSpecial(s[i])) ==> |Esc(s)| > |s|
  {
    if s != [] {
      EscLength(s[1..]);
      if exists i :: 0 <= i < |s| && IsSpecial(s[i]) {
        var i :| 0 <= i < |s| && IsSpecial(s[i]);
        if i > 0 {
          assert IsSpecial(s[1..][i - 1]);
        }
      }
    }
  }

  lemma {:induction false} EscIdentityWhenPlain(s: string)
    requires forall i :: 0 <= i < |s| ==> !IsSpecial(s[i])
    ensures Esc(s) == s
  {
    if s != [] {
      assert !IsSpecial(s[0]);
      EscIdentityWhenPlain(s[1..]);
    }
  }

  /** `esc` leaves a string unchanged exactly when it has none of the five special
      characters. */
  lemma {:induction false} EscIdentity(s: string)
    ensures Esc(s) == s <==> forall i :: 0 <= i < |s| ==> !IsSpecial(s[i])
  {
    EscLength(s);
    if forall i :: 0 <= i < |s| ==> !IsSpecial(s[i]) {
      EscIdentityWhenPlain(s);
    }
  }

  /** Escaping twice equals escaping once exactly when the input needed no escaping:
      an `&` from the first pass is escaped again by the second. */
  lemma {:induction false} EscIdempotentIff(s: string)
    ensures Esc(Esc(s)) == Esc(s) <==> forall i :: 0 <= i < |s| ==> !IsSpecial(s[i])
  {
    EscIdentity(s);
    EscIdentity(Esc(s));
    if exists i :: 0 <= i < |s| && IsSpecial(s[i]) {
      var i :| 0 <= i < |s| && IsSpecial(s[i]);
      EscHasAmpersand(s, i);
    }
  }

  /** A special character at index i of `s` leaves an `&` somewhere in `esc(s)`. */
  lemma {:induction false} EscHasAmpersand(s: string, i: nat)
    requires i < |s| && IsSpecial(s[i])
    ensures exists j :: 0 <= j < |Esc(s)| && IsSpecial(Esc(s)[j])
  {
    var e, rest := EscChar(s[0]), Esc(s[1..]);
    assert Esc(s) == e + rest;
    if i == 0 {
      assert IsSpecial((e + rest)[0]);
    } else {
      EscHasAmpersand(s[1..], i - 1);
      var j :| 0 <= j < |rest| && IsSpecial(rest[j]);
      assert (e + rest)[|e| + j] == rest[j];
    }
  }

  /** The concrete case: `"&"` escapes to `"&amp;"`, which escapes to `"&amp;amp;"`. */
  lemma {:induction false} EscNotIdempotent()
    ensures Esc("&") == "&amp;"
    ensures Esc(Esc("&")) == "&amp;amp;"
  {
    assert Esc("&") == EscChar('&') + Esc([]);
    var t := "&amp;";
    assert Esc(t) == EscChar('&') + Esc("amp;");
    assert Esc("amp;") == "amp;" by {
      EscIdentityWhenPlain("amp;");
    }
  }
}
