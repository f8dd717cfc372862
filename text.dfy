/** ASCII text operations used by the site's string rules: `toLowerCase`,
    `toUpperCase`, `trim`, `split(/\s+/)`, `split(" ")`, `join`, `includes`, and
    `replace(/[^a-z0-9]+/g, " ")`. Characters outside ASCII are passed through by the
    case maps and count as neither letters nor whitespace. */
module Text {

  // ---------------------------------------------------------------------------
  // Characters

  /** The ASCII members of JavaScript's `\s` class. */
  predicate IsSpace(c: char) {
    c == ' ' || c == '\t' || c == '\n' || c == '\r' || c == '\U{B}' || c == '\U{C}'
  }

  predicate IsUpperLetter(c: char) { 'A' <= c <= 'Z' }
  predicate IsLowerLetter(c: char) { 'a' <= c <= 'z' }
  predicate IsDigit(c: char) { '0' <= c <= '9' }

  /** The character classes of the two slug regexes: `[a-z0-9]` and, with the `i`
      flag, `[a-zA-Z0-9]`. */
  datatype CharClass = LowerAlnum | Alnum {
    predicate Has(c: char) {
      match this
      case LowerAlnum => IsLowerLetter(c) || IsDigit(c)
      case Alnum => IsLowerLetter(c) || IsUpperLetter(c) || IsDigit(c)
    }
  }

  function Lower(c: char): (r: char)
    ensures !IsUpperLetter(r)
    ensures IsUpperLetter(c) || r == c
  {
    if IsUpperLetter(c) then (c as int + 32) as char else c
  }

  function Upper(c: char): (r: char)
    ensures !IsLowerLetter(r)
    ensures Lower(r) == Lower(c)
  {
    if IsLowerLetter(c) then (c as int - 32) as char else c
  }

  function LowerStr(s: string): (r: string)
    ensures |r| == |s|
    ensures forall i :: 0 <= i < |s| ==> r[i] == Lower(s[i])
  {
    seq(|s|, i requires 0 <= i < |s| => Lower(s[i]))
  }

  lemma {:induction false} LowerStrAppend(a: string, b: string)
    ensures LowerStr(a + b) == LowerStr(a) + LowerStr(b)
  {
  }

  /** Lower-casing a string that has no upper-case letter changes nothing. */
  lemma {:induction false} LowerStrIdentity(s: string)
    requires forall i :: 0 <= i < |s| ==> !IsUpperLetter(s[i])
    ensures LowerStr(s) == s
  {
  }

  // ---------------------------------------------------------------------------
  // Trimming

  function TrimStart(s: string): (r: string)
    ensures |r| <= |s|
  {
    if |s| > 0 && IsSpace(s[0]) then TrimStart(s[1..]) else s
  }

  function TrimEnd(s: string): (r: string)
    ensures |r| <= |s|
  {
    if |s| > 0 && IsSpace(s[|s| - 1]) then TrimEnd(s[..|s| - 1]) else s
  }

  /** `String.prototype.trim`: drops leading and trailing whitespace. */
  function Trim(s: string): string {
    TrimEnd(TrimStart(s))
  }

  /** TrimStart cuts a run of whitespace off the front and nothing else. */
  lemma {:induction false} TrimStartShape(s: string)
    ensures var r := TrimStart(s);
      && r == s[|s| - |r|..]
      && (r == [] || !IsSpace(r[0]))
      && forall i :: 0 <= i < |s| - |r| ==> IsSpace(s[i])
  {
    if |s| > 0 && IsSpace(s[0]) {
      TrimStartShape(s[1..]);
    }
  }

  /** TrimEnd cuts a run of whitespace off the back and nothing else. */
  lemma {:induction false} TrimEndShape(s: string)
    ensures var r := TrimEnd(s);
      && r == s[..|r|]
      && (r == [] || !IsSpace(r[|r| - 1]))
      && forall i :: |r| <= i < |s| ==> IsSpace(s[i])
  {
    if |s| > 0 && IsSpace(s[|s| - 1]) {
      TrimEndShape(s[..|s| - 1]);
    }
  }

  /** Where the trimmed text starts inside the input. */
  function TrimOffset(s: string): nat {
    |s| - |TrimStart(s)|
  }

  /** The trimmed string is a contiguous piece of the input with no whitespace at
      either end, and only whitespace was cut away. */
  lemma {:induction false} TrimShape(s: string)
    ensures var r, a := Trim(s), TrimOffset(s);
      && a + |r| <= |s| && r == s[a..a + |r|]
      && (r == [] || (!IsSpace(r[0]) && !IsSpace(r[|r| - 1])))
      && (forall i :: 0 <= i < a ==> IsSpace(s[i]))
      && (forall i :: a + |r| <= i < |s| ==> IsSpace(s[i]))
  {
    var t := TrimStart(s);
    TrimStartShape(s);
    TrimEndShape(t);
    var r := TrimEnd(t);
    var a := |s| - |t|;
    assert t == s[a..];
    assert r == t[..|r|];
    assert r == s[a..a + |r|] by {
      forall i | 0 <= i < |r| ensures r[i] == s[a + i] {
        assert r[i] == t[i];
        assert t[i] == s[a + i];
      }
    }
    assert Trim(s) == r;
    assert TrimOffset(s) == a;
    forall i | a + |r| <= i < |s| ensures IsSpace(s[i]) {
      assert s[i] == t[i - a];
    }
  }

  /** A string with no whitespace at either end is its own trim. */
  lemma {:induction false} TrimIdentity(s: string)
    requires s == [] || (!IsSpace(s[0]) && !IsSpace(s[|s| - 1]))
    ensures Trim(s) == s
  {
  }

  lemma {:induction false} TrimIdempotent(s: string)
    ensures Trim(Trim(s)) == Trim(s)
  {
    TrimShape(s);
    TrimIdentity(Trim(s));
  }

  // ---------------------------------------------------------------------------
  // Whitespace-separated tokens: `s.split(/\s+/).filter(Boolean)`

  function LeadingWord(s: string): (w: string)
    ensures |w| <= |s|
    ensures |s| > 0 && !IsSpace(s[0]) ==> |w| > 0
  {
    if s == [] || IsSpace(s[0]) then [] else [s[0]] + LeadingWord(s[1..])
  }

  predicate NoSpace(w: string) {
    forall i :: 0 <= i < |w| ==> !IsSpace(w[i])
  }

  /** The leading word runs up to the first whitespace character, or to the end. */
  lemma {:induction false} LeadingWordUpTo(s: string, n: nat)
    requires n <= |s| && NoSpace(s[..n])
    requires n < |s| ==> IsSpace(s[n])
    ensures LeadingWord(s) == s[..n]
  {
    if n > 0 {
      assert s[0] == s[..n][0];
      var p := s[1..][..n - 1];
      forall i | 0 <= i < |p| ensures !IsSpace(p[i]) {
        assert p[i] == s[..n][i + 1];
      }
      LeadingWordUpTo(s[1..], n - 1);
    }
  }

  /** The maximal runs of non-whitespace characters of `s`, in order. */
  function Tokens(s: string): (ws: seq<string>)
    decreases |s|
  {
    var t := TrimStart(s);
    if t == [] then []
    else
      var w := LeadingWord(t);
      [w] + Tokens(t[|w|..])
  }

  /** Every whitespace character is a single ' ' with a non-space on both sides,
      so the string starts and ends with a non-space. */
  predicate SingleSpaced(s: string) {
    forall i :: 0 <= i < |s| && IsSpace(s[i]) ==>
      0 < i < |s| - 1 && s[i] == ' ' && !IsSpace(s[i + 1])
  }

  function Join(ws: seq<string>, sep: string): string {
    if ws == [] then []
    else if |ws| == 1 then ws[0]
    else ws[0] + sep + Join(ws[1..], sep)
  }

  function Concat(ws: seq<string>): string {
    if ws == [] then [] else ws[0] + Concat(ws[1..])
  }

  /** Single-spaced text is a first word, then either nothing or one space and
      more single-spaced text. */
  lemma {:induction false} SingleSpacedSplit(s: string)
    requires SingleSpaced(s) && s != []
    ensures var w := LeadingWord(s);
      && 0 < |w| <= |s| && w == s[..|w|] && NoSpace(w)
      && (|w| < |s| ==>
            |w| + 1 < |s| && s[|w|] == ' ' && SingleSpaced(s[|w| + 1..])
            && s[|w| + 1..] != [] && !IsSpace(s[|w| + 1])
            && TrimStart(s[|w|..]) == s[|w| + 1..])
  {
    var n := FirstSpace(s, 0);
    LeadingWordUpTo(s, n);
    var w := LeadingWord(s);
    if n < |s| {
      var sub := s[n + 1..];
      forall i | 0 <= i < |sub| && IsSpace(sub[i])
        ensures 0 < i < |sub| - 1 && sub[i] == ' ' && !IsSpace(sub[i + 1])
      {
        assert sub[i] == s[n + 1 + i];
      }
      assert s[n..][0] == ' ' && s[n..][1..] == sub;
    }
  }

  /** Index of the first whitespace character at or after `from`, or `|s|`. */
  function FirstSpace(s: string, from: nat): (n: nat)
    requires from <= |s|
    requires NoSpace(s[..from])
    ensures from <= n <= |s| && NoSpace(s[..n]) && (n < |s| ==> IsSpace(s[n]))
    decreases |s| - from
  {
    if from == |s| || IsSpace(s[from]) then from
    else
      assert forall i :: 0 <= i < from + 1 ==> s[..from + 1][i] == (if i < from then s[..from][i] else s[from]);
      FirstSpace(s, from + 1)
  }

  /** The tokens of single-spaced text are non-empty and space-free. */
  lemma {:induction false} TokensOfSingleSpaced(s: string)
    requires SingleSpaced(s)
    ensures s != [] ==> Tokens(s) != []
    ensures forall k :: 0 <= k < |Tokens(s)| ==> |Tokens(s)[k]| > 0 && NoSpace(Tokens(s)[k])
    decreases |s|
  {
    if s != [] {
      SingleSpacedSplit(s);
      TokensStep(s);
      var w := LeadingWord(s);
      if |w| < |s| {
        TokensOfSingleSpaced(s[|w| + 1..]);
      }
    }
  }

  lemma {:induction false} TrimStartTwice(s: string)
    ensures TrimStart(TrimStart(s)) == TrimStart(s)
  {
    TrimStartShape(s);
  }

  /** Leading whitespace does not change the tokens. */
  lemma {:induction false} TokensTrimStart(s: string)
    ensures Tokens(TrimStart(s)) == Tokens(s)
  {
    TrimStartTwice(s);
  }

  /** One step of the tokens of single-spaced text: its first word, then the tokens
      of what follows the space after it. */
  lemma {:induction false} TokensStep(s: string)
    requires SingleSpaced(s) && s != []
    ensures var w := LeadingWord(s);
      && 0 < |w| && w == s[..|w|] && NoSpace(w)
      && (|w| == |s| ==> w == s && Tokens(s) == [s])
      && (|w| < |s| ==> Tokens(s) == [w] + Tokens(s[|w| + 1..]))
  {
    SingleSpacedSplit(s);
    var w := LeadingWord(s);
    assert TrimStart(s) == s;
    assert Tokens(s) == [w] + Tokens(s[|w|..]);
    if |w| == |s| {
      assert s[|w|..] == [];
    } else {
      TokensTrimStart(s[|w|..]);
    }
  }

  /** Single-spaced text with more than one word is its first word, a space and
      more single-spaced text. */
  lemma {:induction false} SingleSpacedCons(s: string)
    requires SingleSpaced(s) && s != [] && |LeadingWord(s)| < |s|
    ensures var w := LeadingWord(s); var sub := s[|w| + 1..];
      && s == w + " " + sub && sub != [] && SingleSpaced(sub) && |sub| < |s|
  {
    SingleSpacedSplit(s);
    var w := LeadingWord(s);
    var sub := s[|w| + 1..];
    assert s == s[..|w|] + s[|w|..];
    assert s[|w|..] == [' '] + sub;
  }

  /** For single-spaced text, splitting into tokens and joining them with one
      space gives the text back. */
  lemma {:induction false} JoinTokens(s: string)
    requires SingleSpaced(s)
    ensures Join(Tokens(s), " ") == s
    decreases |s|
  {
    if s != [] {
      TokensStep(s);
      var w := LeadingWord(s);
      if |w| < |s| {
        SingleSpacedCons(s);
        var sub := s[|w| + 1..];
        var ts := Tokens(sub);
        JoinTokens(sub);
        TokensStep(sub);
        var ws := [w] + ts;
        assert ws[0] == w && ws[1..] == ts && |ws| > 1;
        assert Join(ws, " ") == w + " " + Join(ts, " ");
      }
    }
  }

  // ---------------------------------------------------------------------------
  // `split(" ")` with a one-character separator

  function IndexOf(s: string, c: char): (i: nat)
    requires c in s
    ensures i < |s| && s[i] == c && c !in s[..i]
  {
    if s[0] == c then 0 else 1 + IndexOf(s[1..], c)
  }

  /** `s.split(c)`: the pieces between occurrences of `c`; `""` splits into `[""]`. */
  function SplitOn(s: string, c: char): (ps: seq<string>)
    decreases |s|
  {
    if c !in s then [s]
    else
      var i := IndexOf(s, c);
      [s[..i]] + SplitOn(s[i + 1..], c)
  }

  /** The first occurrence is the one with no occurrence before it. */
  lemma {:induction false} IndexOfUnique(s: string, c: char, n: nat)
    requires n < |s| && s[n] == c && c !in s[..n]
    ensures c in s && IndexOf(s, c) == n
  {
    assert c in s by { assert s[n] == c; }
    var i := IndexOf(s, c);
    assert forall j :: 0 <= j < n ==> s[..n][j] == s[j];
    assert forall j :: 0 <= j < i ==> s[..i][j] == s[j];
  }

  /** On single-spaced text, `split(" ")` and the token split agree, except that
      `""` splits into `[""]`. */
  lemma {:induction false} SplitOnSpaceIsTokens(s: string)
    requires SingleSpaced(s)
    ensures SplitOn(s, ' ') == if s == [] then [[]] else Tokens(s)
    decreases |s|
  {
    if s != [] {
      TokensStep(s);
      var w := LeadingWord(s);
      assert ' ' !in w by {
        assert forall j :: 0 <= j < |w| ==> !IsSpace(w[j]);
      }
      if |w| == |s| {
        assert SplitOn(s, ' ') == [s];
      } else {
        SingleSpacedCons(s);
        var sub := s[|w| + 1..];
        assert s[|w|] == ' ' && s[..|w|] == w;
        IndexOfUnique(s, ' ', |w|);
        assert SplitOn(s, ' ') == [w] + SplitOn(sub, ' ');
        SplitOnSpaceIsTokens(sub);
      }
    }
  }

  // ---------------------------------------------------------------------------
  // `replace(/[^k]+/g, " ")`: every maximal run of characters outside the class
  // becomes one space

  /** Drops the leading characters that are outside the class. */
  function DropOutside(s: string, k: CharClass): (r: string)
    ensures |r| <= |s|
  {
    if |s| > 0 && !k.Has(s[0]) then DropOutside(s[1..], k) else s
  }

  lemma {:induction false} DropOutsideStart(s: string, k: CharClass)
    ensures var r := DropOutside(s, k); r == [] || k.Has(r[0])
  {
    if |s| > 0 && !k.Has(s[0]) {
      DropOutsideStart(s[1..], k);
    }
  }

  function Collapse(s: string, k: CharClass): (r: string)
    decreases |s|
  {
    if s == [] then []
    else if k.Has(s[0]) then [s[0]] + Collapse(s[1..], k)
    else [' '] + Collapse(DropOutside(s[1..], k), k)
  }

  /** The characters of `s` that are in the class, in order. */
  function Keep(s: string, k: CharClass): (r: string)
  {
    if s == [] then [] else (if k.Has(s[0]) then [s[0]] else []) + Keep(s[1..], k)
  }

  function RemoveSpaces(s: string): (r: string)
  {
    if s == [] then [] else (if s[0] == ' ' then [] else [s[0]]) + RemoveSpaces(s[1..])
  }

  lemma {:induction false} RemoveSpacesAppend(a: string, b: string)
    ensures RemoveSpaces(a + b) == RemoveSpaces(a) + RemoveSpaces(b)
  {
    if a != [] {
      assert (a + b)[0] == a[0];
      assert (a + b)[1..] == a[1..] + b;
      RemoveSpacesAppend(a[1..], b);
    } else {
      assert a + b == b;
    }
  }

  /** Every whitespace character is a ' ' that is not followed by another
      whitespace character. */
  predicate LoneSpaces(s: string) {
    forall i :: 0 <= i < |s| && IsSpace(s[i]) ==>
      s[i] == ' ' && (i + 1 < |s| ==> !IsSpace(s[i + 1]))
  }

  predicate InClassOrSpace(s: string, k: CharClass) {
    forall i :: 0 <= i < |s| ==> k.Has(s[i]) || s[i] == ' '
  }

  lemma {:induction false} CollapseShape(s: string, k: CharClass)
    ensures InClassOrSpace(Collapse(s, k), k)
    ensures LoneSpaces(Collapse(s, k))
    ensures s != [] && k.Has(s[0]) ==> Collapse(s, k)[0] == s[0]
    decreases |s|
  {
    if s != [] {
      var c0 := if k.Has(s[0]) then s[0] else ' ';
      var rest := if k.Has(s[0]) then s[1..] else DropOutside(s[1..], k);
      CollapseShape(rest, k);
      var c := Collapse(rest, k);
      assert Collapse(s, k) == [c0] + c;
      if !k.Has(s[0]) {
        DropOutsideStart(s[1..], k);
        assert c != [] ==> k.Has(c[0]);
      }
      var r := [c0] + c;
      forall i | 0 <= i < |r| ensures k.Has(r[i]) || r[i] == ' ' {
        if i > 0 { assert r[i] == c[i - 1]; }
      }
      forall i | 0 <= i < |r| && IsSpace(r[i])
        ensures r[i] == ' ' && (i + 1 < |r| ==> !IsSpace(r[i + 1]))
      {
        if i > 0 {
          assert r[i] == c[i - 1];
          if i + 1 < |r| { assert r[i + 1] == c[i]; }
        }
      }
    }
  }

  lemma {:induction false} KeepDropOutside(s: string, k: CharClass)
    ensures Keep(DropOutside(s, k), k) == Keep(s, k)
    decreases |s|
  {
    if |s| > 0 && !k.Has(s[0]) {
      KeepDropOutside(s[1..], k);
    }
  }

  /** Removing the separators from the collapsed text leaves exactly the characters
      of the class, in order. */
  lemma {:induction false} CollapseKeeps(s: string, k: CharClass)
    ensures RemoveSpaces(Collapse(s, k)) == Keep(s, k)
    decreases |s|
  {
    if s != [] {
      if k.Has(s[0]) {
        CollapseKeeps(s[1..], k);
        RemoveSpacesAppend([s[0]], Collapse(s[1..], k));
      } else {
        var d := DropOutside(s[1..], k);
        CollapseKeeps(d, k);
        KeepDropOutside(s[1..], k);
        RemoveSpacesAppend([' '], Collapse(d, k));
      }
    }
  }

  /** Trimming text whose whitespace is all lone spaces leaves single-spaced text. */
  lemma {:induction false} TrimLoneSpaces(s: string)
    requires LoneSpaces(s)
    ensures SingleSpaced(Trim(s))
  {
    TrimShape(s);
    var r, a := Trim(s), TrimOffset(s);
    forall i | 0 <= i < |r| && IsSpace(r[i])
      ensures 0 < i < |r| - 1 && r[i] == ' ' && !IsSpace(r[i + 1])
    {
      assert r[i] == s[a + i];
      if i + 1 < |r| { assert r[i + 1] == s[a + i + 1]; }
    }
  }

  /** Cutting off spaces at the ends does not change what is left after removing
      spaces. */
  lemma {:induction false} RemoveSpacesPiece(s: string, a: nat, b: nat)
    requires a <= b <= |s|
    requires forall i :: 0 <= i < a ==> s[i] == ' '
    requires forall i :: b <= i < |s| ==> s[i] == ' '
    ensures RemoveSpaces(s[a..b]) == RemoveSpaces(s)
  {
    var p, m, q := s[..a], s[a..b], s[b..];
    forall i | 0 <= i < |p| ensures p[i] == ' ' { assert p[i] == s[i]; }
    forall i | 0 <= i < |q| ensures q[i] == ' ' { assert q[i] == s[b + i]; }
    AllSpaces(p);
    AllSpaces(q);
    calc {
      RemoveSpaces(s);
      { assert s == p + (m + q) by { assert s == s[..a] + s[a..]; assert s[a..] == m + q; } }
      RemoveSpaces(p + (m + q));
      { RemoveSpacesAppend(p, m + q); }
      RemoveSpaces(m + q);
      { RemoveSpacesAppend(m, q); }
      RemoveSpaces(m);
    }
  }

  lemma {:induction false} AllSpaces(s: string)
    requires forall i :: 0 <= i < |s| ==> s[i] == ' '
    ensures RemoveSpaces(s) == []
  {
    if s != [] {
      AllSpaces(s[1..]);
    }
  }

  lemma {:induction false} RemoveSpacesNone(w: string)
    requires NoSpace(w)
    ensures RemoveSpaces(w) == w
  {
    if w != [] {
      assert w[0] != ' ';
      RemoveSpacesNone(w[1..]);
    }
  }

  /** Joining space-free words with single spaces and then deleting the spaces
      gives their concatenation. */
  lemma {:induction false} RemoveSpacesJoin(ws: seq<string>)
    requires forall k :: 0 <= k < |ws| ==> NoSpace(ws[k])
    ensures RemoveSpaces(Join(ws, " ")) == Concat(ws)
  {
    if ws != [] {
      RemoveSpacesNone(ws[0]);
      if |ws| > 1 {
        var rest := Join(ws[1..], " ");
        assert Join(ws, " ") == ws[0] + " " + rest;
        RemoveSpacesJoin(ws[1..]);
        RemoveSpacesAppend(ws[0] + " ", rest);
        RemoveSpacesAppend(ws[0], " ");
        assert RemoveSpaces(" ") == [];
        assert Concat(ws) == ws[0] + Concat(ws[1..]);
      } else {
        assert Concat(ws) == ws[0] + Concat([]);
      }
    }
  }

  // ---------------------------------------------------------------------------
  // Substring test: `s.includes(t)`

  predicate Contains(s: string, t: string)
    decreases |s|
  {
    t <= s || (s != [] && Contains(s[1..], t))
  }
}
