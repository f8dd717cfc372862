/** The icon-key rule of the icon export script (src/js/export-icons.mjs, `toSiKey`):
    a Simple Icons slug becomes the name of its export, "si" followed by the slug's
    alphanumeric words, each with its first character upper-cased. The script's file
    writing is left out. */
module ExportIcons {
  import opened Text
  import SkillLabel

  /** `s.replace(/[^a-z0-9]+/gi, " ").trim()`. */
  function Spaced(s: string): string {
    Trim(Collapse(s, Alnum))
  }

  /** The slug has a letter or a digit. Without one the split yields `[""]` and `w[0]`
      of the empty word is `undefined`, so the script throws. */
  predicate HasAlnum(s: string) {
    exists i :: 0 <= i < |s| && Alnum.Has(s[i])
  }

  /** `toSiKey(s)`: split on " ", upper-case the first character of every piece, and
      join without a separator. */
  function ToSiKey(s: string): (key: string)
    requires HasAlnum(s)
    ensures |key| >= 2 && key[..2] == "si"
  {
    "si" + Concat(SkillLabel.CapitalizeAll(SplitOn(Spaced(s), ' ')))
  }

  /** The words of the slug: its maximal runs of letters and digits. */
  function Words(s: string): seq<string> {
    Tokens(Spaced(s))
  }

  predicate AllAlnum(w: string) {
    forall i :: 0 <= i < |w| ==> Alnum.Has(w[i])
  }

  // ---------------------------------------------------------------------------
  // The spaced slug

  /** The spaced slug is letters and digits with single spaces between its words,
      and deleting the spaces leaves the slug's letters and digits. */
  lemma {:induction false} SpacedShape(s: string)
    ensures SingleSpaced(Spaced(s)) && InClassOrSpace(Spaced(s), Alnum)
    ensures RemoveSpaces(Spaced(s)) == Keep(s, Alnum)
  {
    var c := Collapse(s, Alnum);
    CollapseShape(s, Alnum);
    CollapseKeeps(s, Alnum);
    TrimLoneSpaces(c);
    TrimShape(c);
    var r, a := Trim(c), TrimOffset(c);
    forall i | 0 <= i < |r| ensures Alnum.Has(r[i]) || r[i] == ' ' {
      assert r[i] == c[a + i];
    }
    forall i | 0 <= i < a ensures c[i] == ' ' {
      assert IsSpace(c[i]);
    }
    forall i | a + |r| <= i < |c| ensures c[i] == ' ' {
      assert IsSpace(c[i]);
    }
    RemoveSpacesPiece(c, a, a + |r|);
  }

  lemma {:induction false} KeepInClass(s: string, k: CharClass)
    ensures forall i :: 0 <= i < |Keep(s, k)| ==> k.Has(Keep(s, k)[i])
  {
    if s != [] {
      KeepInClass(s[1..], k);
      var h := if k.Has(s[0]) then [s[0]] else [];
      var t := Keep(s[1..], k);
      assert Keep(s, k) == h + t;
      forall i | 0 <= i < |h + t| ensures k.Has((h + t)[i]) {
        if i >= |h| { assert (h + t)[i] == t[i - |h|]; }
      }
    }
  }

  /** The slug has a letter or digit exactly when keeping them leaves something. */
  lemma {:induction false} KeepNonEmpty(s: string, k: CharClass)
    ensures Keep(s, k) != [] <==> exists i :: 0 <= i < |s| && k.Has(s[i])
  {
    if s != [] {
      KeepNonEmpty(s[1..], k);
      if exists i :: 0 <= i < |s| && k.Has(s[i]) {
        var i :| 0 <= i < |s| && k.Has(s[i]);
        if i > 0 { assert s[1..][i - 1] == s[i]; }
      }
      if exists j :: 0 <= j < |s[1..]| && k.Has(s[1..][j]) {
        var j :| 0 <= j < |s[1..]| && k.Has(s[1..][j]);
        assert s[j + 1] == s[1..][j];
      }
    }
  }

  lemma {:induction false} ConcatHas(ws: seq<string>, k: nat, i: nat)
    requires k < |ws| && i < |ws[k]|
    ensures ws[k][i] in Concat(ws)
  {
    if k == 0 {
      assert Concat(ws)[i] == ws[0][i];
    } else {
      ConcatHas(ws[1..], k - 1, i);
      var c := Concat(ws[1..]);
      assert ws[1..][k - 1] == ws[k];
      var j :| 0 <= j < |c| && c[j] == ws[k][i];
      assert Concat(ws)[|ws[0]| + j] == c[j];
    }
  }

  lemma {:induction false} ConcatEmpty(ws: seq<string>)
    requires forall k :: 0 <= k < |ws| ==> ws[k] != []
    ensures Concat(ws) == [] <==> ws == []
  {
  }

  /** The words are non-empty runs of letters and digits; run together they are
      exactly the slug's letters and digits, so every other character only separates
      words; and there is a word exactly when the slug has a letter or digit. */
  lemma {:induction false} WordsShape(s: string)
    ensures forall k :: 0 <= k < |Words(s)| ==> Words(s)[k] != [] && AllAlnum(Words(s)[k])
    ensures Concat(Words(s)) == Keep(s, Alnum)
    ensures Words(s) != [] <==> HasAlnum(s)
  {
    var t := Spaced(s);
    var ws := Words(s);
    SpacedShape(s);
    TokensOfSingleSpaced(t);
    JoinTokens(t);
    RemoveSpacesJoin(ws);
    KeepInClass(s, Alnum);
    KeepNonEmpty(s, Alnum);
    forall k, i | 0 <= k < |ws| && 0 <= i < |ws[k]| ensures Alnum.Has(ws[k][i]) {
      ConcatHas(ws, k, i);
    }
    ConcatEmpty(ws);
  }

  // ---------------------------------------------------------------------------
  // The key

  /** `split(" ")` of the spaced slug yields its words; the key is "si" and the words,
      each capitalised. */
  lemma {:induction false} ToSiKeyWords(s: string)
    requires HasAlnum(s)
    ensures ToSiKey(s) == "si" + Concat(SkillLabel.CapitalizeAll(Words(s)))
  {
    SpacedShape(s);
    WordsShape(s);
    SplitOnSpaceIsTokens(Spaced(s));
    assert Spaced(s) != [];
  }

  /** `a` is `b` with some letters changed in case. */
  predicate SameUpToCase(a: string, b: string) {
    |a| == |b| && forall i :: 0 <= i < |a| ==> Lower(a[i]) == Lower(b[i])
  }

  lemma {:induction false} SameUpToCaseAppend(a: string, b: string, c: string, d: string)
    requires SameUpToCase(a, b) && SameUpToCase(c, d)
    ensures SameUpToCase(a + c, b + d)
  {
    forall i | 0 <= i < |a + c| ensures Lower((a + c)[i]) == Lower((b + d)[i]) {
      if i >= |a| {
        assert (a + c)[i] == c[i - |a|] && (b + d)[i] == d[i - |a|];
      }
    }
  }

  lemma {:induction false} CapitalizedConcat(ws: seq<string>)
    requires forall k :: 0 <= k < |ws| ==> ws[k] != []
    ensures SameUpToCase(Concat(SkillLabel.CapitalizeAll(ws)), Concat(ws))
  {
    if ws != [] {
      CapitalizedConcat(ws[1..]);
      var w := ws[0];
      assert SkillLabel.CapitalizeAll(ws)[1..] == SkillLabel.CapitalizeAll(ws[1..]);
      assert SameUpToCase(SkillLabel.Capitalize(w), w) by {
        assert SkillLabel.Capitalize(w) == [Upper(w[0])] + w[1..];
      }
      SameUpToCaseAppend(SkillLabel.Capitalize(w), w,
        Concat(SkillLabel.CapitalizeAll(ws[1..])), Concat(ws[1..]));
    }
  }

  /** The key is "si" followed by the slug's letters and digits, in order and with
      nothing between them; only their case may differ. */
  lemma {:induction false} ToSiKeyLetters(s: string)
    requires HasAlnum(s)
    ensures var key := ToSiKey(s);
      key[..2] == "si" && SameUpToCase(key[2..], Keep(s, Alnum))
  {
    ToSiKeyWords(s);
    WordsShape(s);
    CapitalizedConcat(Words(s));
  }

  // ---------------------------------------------------------------------------
  // Slugs of one and two words

  lemma {:induction false} CollapseInClass(w: string)
    requires AllAlnum(w)
    ensures Collapse(w, Alnum) == w
  {
    if w != [] {
      assert AllAlnum(w[1..]) by {
        forall i | 0 <= i < |w[1..]| ensures Alnum.Has(w[1..][i]) {
          assert w[1..][i] == w[i + 1];
        }
      }
      CollapseInClass(w[1..]);
    }
  }

  lemma {:induction false} NoSpaceAlnum(w: string)
    requires AllAlnum(w)
    ensures NoSpace(w)
  {
    forall i | 0 <= i < |w| ensures !IsSpace(w[i]) {
      assert Alnum.Has(w[i]);
    }
  }

  /** A one-word slug gets "si" and the word capitalised ("python" gives "siPython"). */
  lemma {:induction false} OneWordKey(w: string)
    requires w != [] && AllAlnum(w)
    ensures HasAlnum(w) && ToSiKey(w) == "si" + [Upper(w[0])] + w[1..]
  {
    assert Alnum.Has(w[0]);
    CollapseInClass(w);
    NoSpaceAlnum(w);
    TrimIdentity(w);
    assert ' ' !in w;
    assert SplitOn(w, ' ') == [w];
    assert SkillLabel.CapitalizeAll([w]) == [SkillLabel.Capitalize(w)];
    assert Concat([SkillLabel.Capitalize(w)]) == SkillLabel.Capitalize(w) + Concat([]);
  }

  /** Two words around a run of other characters lose the run and are capitalised
      each ("scikit-learn" gives "siScikitLearn"; `Capitalize` upper-cases the first
      character of a non-empty word). */
  lemma {:induction false} TwoWordKey(a: string, sep: string, b: string)
    requires a != [] && b != [] && AllAlnum(a) && AllAlnum(b)
    requires sep != [] && forall i :: 0 <= i < |sep| ==> !Alnum.Has(sep[i])
    ensures HasAlnum(a + sep + b)
    ensures ToSiKey(a + sep + b) == "si" + SkillLabel.Capitalize(a) + SkillLabel.Capitalize(b)
  {
    var s := a + sep + b;
    assert s[0] == a[0] && Alnum.Has(s[0]);
    SpacedTwoWords(a, sep, b);
    SplitTwoWords(a, b);
    KeyOfPieces(s, [a, b]);
    CapitalizeTwo(a, b);
  }

  lemma {:induction false} CapitalizeTwo(a: string, b: string)
    ensures Concat(SkillLabel.CapitalizeAll([a, b])) == SkillLabel.Capitalize(a) + SkillLabel.Capitalize(b)
  {
    var ca, cb := SkillLabel.Capitalize(a), SkillLabel.Capitalize(b);
    assert SkillLabel.CapitalizeAll([a, b]) == [ca, cb];
    assert Concat([ca, cb]) == ca + (cb + Concat([]));
  }

  /** The key from the pieces the split yields. */
  lemma {:induction false} KeyOfPieces(s: string, ps: seq<string>)
    requires HasAlnum(s) && SplitOn(Spaced(s), ' ') == ps
    ensures ToSiKey(s) == "si" + Concat(SkillLabel.CapitalizeAll(ps))
  {
  }

  lemma {:induction false} SpacedTwoWords(a: string, sep: string, b: string)
    requires a != [] && b != [] && AllAlnum(a) && AllAlnum(b)
    requires sep != [] && forall i :: 0 <= i < |sep| ==> !Alnum.Has(sep[i])
    ensures Spaced(a + sep + b) == a + " " + b
  {
    CollapseAround(a, sep, b);
    var t := a + " " + b;
    assert t[0] == a[0] && t[|t| - 1] == b[|b| - 1];
    assert Alnum.Has(a[0]) && Alnum.Has(b[|b| - 1]);
    TrimIdentity(t);
  }

  lemma {:induction false} SplitTwoWords(a: string, b: string)
    requires a != [] && b != [] && AllAlnum(a) && AllAlnum(b)
    ensures SplitOn(a + " " + b, ' ') == [a, b]
  {
    NoSpaceAlnum(a);
    NoSpaceAlnum(b);
    var t := a + " " + b;
    assert ' ' !in a;
    assert t[|a|] == ' ' && t[..|a|] == a && t[|a| + 1..] == b;
    IndexOfUnique(t, ' ', |a|);
    assert ' ' !in b;
    assert SplitOn(t, ' ') == [a] + SplitOn(b, ' ');
    assert SplitOn(b, ' ') == [b];
  }

  /** Collapsing word, separators, word. */
  lemma {:induction false} CollapseAround(a: string, sep: string, b: string)
    requires AllAlnum(a) && b != [] && AllAlnum(b)
    requires sep != [] && forall i :: 0 <= i < |sep| ==> !Alnum.Has(sep[i])
    ensures Collapse(a + sep + b, Alnum) == a + " " + b
  {
    if a == [] {
      var s := sep + b;
      assert s[0] == sep[0] && !Alnum.Has(s[0]);
      assert s[1..] == sep[1..] + b;
      DropSeparators(sep[1..], b);
      CollapseInClass(b);
      assert Collapse(s, Alnum) == [' '] + Collapse(DropOutside(s[1..], Alnum), Alnum);
      assert a + sep + b == s && a + " " + b == " " + b;
    } else {
      var s := a + sep + b;
      assert s[0] == a[0] && s[1..] == a[1..] + sep + b;
      assert AllAlnum(a[1..]) by {
        forall i | 0 <= i < |a[1..]| ensures Alnum.Has(a[1..][i]) {
          assert a[1..][i] == a[i + 1];
        }
      }
      CollapseAround(a[1..], sep, b);
    }
  }

  lemma {:induction false} DropSeparators(sep: string, b: string)
    requires b != [] && Alnum.Has(b[0])
    requires forall i :: 0 <= i < |sep| ==> !Alnum.Has(sep[i])
    ensures DropOutside(sep + b, Alnum) == b
  {
    if sep == [] {
      assert sep + b == b;
    } else {
      assert (sep + b)[0] == sep[0] && (sep + b)[1..] == sep[1..] + b;
      DropSeparators(sep[1..], b);
    }
  }
}
