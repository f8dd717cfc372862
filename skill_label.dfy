/** The caption rule of the 3-D skills keyboard (src/components/Keyboard.jsx,
    `computeSkillLabel`): a key mesh named like `key_postgresql` is shown as
    "PostgreSQL", either from a fixed table of overrides or by capitalising the words
    of its slug. */
module SkillLabel {
  import opened Wrappers
  import opened Text

  /** The caption used when a key name has no letters or digits. */
  const Fallback: string := "—"

  /** The hand-written captions, keyed by slug or compact slug: the table of lines
      14-38, written as six literals in source order and joined. */
  const Overrides: map<string, string> :=
    OverridesA + OverridesB + OverridesC + OverridesD + OverridesE + OverridesF

  const OverridesA: map<string, string> := map[
    "js" := "JavaScript",
    "javascript" := "JavaScript",
    "html5" := "HTML5",
    "css3" := "CSS3"
  ]

  const OverridesB: map<string, string> := map[
    "scikitlearn" := "Scikit-learn",
    "postgresql" := "PostgreSQL",
    "mysql" := "MySQL",
    "sqlalchemy" := "SQLAlchemy"
  ]

  const OverridesC: map<string, string> := map[
    "numpy" := "NumPy",
    "pandas" := "Pandas",
    "matplotlib" := "Matplotlib",
    "tailwindcss" := "Tailwind CSS"
  ]

  const OverridesD: map<string, string> := map[
    "fastapi" := "FastAPI",
    "websocket" := "WebSocket",
    "docker" := "Docker",
    "redis" := "Redis"
  ]

  const OverridesE: map<string, string> := map[
    "telegram" := "Telegram",
    "linux" := "Linux",
    "git" := "Git",
    "pytest" := "Pytest"
  ]

  const OverridesF: map<string, string> := map[
    "selenium" := "Selenium",
    "django" := "Django",
    "c" := "C"
  ]

  predicate IsPrefixSeparator(c: char) { c == ' ' || c == '_' || c == '-' }

  /** `raw.replace(/^key[ _-]?/i, "")`: a leading "key" in any case, and one
      separator after it if there is one, are removed. */
  function StripKeyPrefix(s: string): (r: string)
    ensures |r| <= |s|
  {
    if |s| >= 3 && LowerStr(s[..3]) == "key" then
      var rest := s[3..];
      if |rest| > 0 && IsPrefixSeparator(rest[0]) then rest[1..] else rest
    else s
  }

  /** The slug: prefix stripped, lower-cased, every run of characters other than
      `[a-z0-9]` turned into one space, then trimmed. */
  function Slug(name: string): string {
    Trim(Collapse(LowerStr(StripKeyPrefix(name)), LowerAlnum))
  }

  /** `slug.replace(/\s+/g, "")`; the only whitespace a slug holds is ' '. */
  function Compact(slug: string): string {
    RemoveSpaces(slug)
  }

  /** `w[0]?.toUpperCase() + w.slice(1)`; on the empty word the optional chain
      gives `undefined`, which the concatenation spells out. */
  function Capitalize(w: string): string {
    if w == [] then "undefined" else [Upper(w[0])] + w[1..]
  }

  function CapitalizeAll(ws: seq<string>): (r: seq<string>)
    ensures |r| == |ws|
    ensures forall k :: 0 <= k < |ws| ==> r[k] == Capitalize(ws[k])
  {
    if ws == [] then [] else [Capitalize(ws[0])] + CapitalizeAll(ws[1..])
  }

  /** The caption built from the words of the slug, `—` when it has none. */
  function WordsLabel(slug: string): string {
    var joined := Join(CapitalizeAll(Tokens(slug)), " ");
    if joined == [] then Fallback else joined
  }

  /** The caption rule for a given override table: the entry for the slug, else the
      entry for the compact slug, else the capitalised words. `table[k] || …` in the
      source tests truthiness; for a table whose captions are non-empty
      (`WellFormedTable`) that is membership. Only the table's own entries are looked up. */
  function LabelFrom(table: map<string, string>, name: string): (r: string)
    ensures Slug(name) in table ==> r == table[Slug(name)]
    ensures Slug(name) !in table && Compact(Slug(name)) in table ==> r == table[Compact(Slug(name))]
  {
    var slug := Slug(name);
    if slug in table then table[slug]
    else if Compact(slug) in table then table[Compact(slug)]
    else WordsLabel(slug)
  }

  /** `computeSkillLabel(name)`. */
  function ComputeSkillLabel(name: string): (r: string)
    ensures |r| > 0
  {
    OverridesWellFormed();
    LabelWithoutOverride(Overrides, name);
    LabelFrom(Overrides, name)
  }

  /** A table whose keys could be slugs of one word: non-empty, lower-case letters and
      digits only; and whose captions are non-empty, so every entry is truthy. */
  predicate WellFormedTable(table: map<string, string>) {
    forall k :: k in table ==> k != [] && AllLowerAlnum(k) && |table[k]| > 0
  }

  predicate AllLowerAlnum(w: string) {
    forall i :: 0 <= i < |w| ==> IsLowerLetter(w[i]) || IsDigit(w[i])
  }

  // ---------------------------------------------------------------------------
  // The slug

  predicate SlugChars(s: string) {
    forall i :: 0 <= i < |s| ==> IsLowerLetter(s[i]) || IsDigit(s[i]) || s[i] == ' '
  }

  /** A slug consists of lower-case letters, digits and single spaces between words. */
  lemma {:induction false} SlugShape(name: string)
    ensures SingleSpaced(Slug(name))
    ensures SlugChars(Slug(name))
  {
    var c := Collapse(LowerStr(StripKeyPrefix(name)), LowerAlnum);
    CollapseShape(LowerStr(StripKeyPrefix(name)), LowerAlnum);
    TrimLoneSpaces(c);
    TrimShape(c);
    var r, a := Trim(c), TrimOffset(c);
    forall i | 0 <= i < |r| ensures IsLowerLetter(r[i]) || IsDigit(r[i]) || r[i] == ' ' {
      assert r[i] == c[a + i];
    }
  }

  lemma {:induction false} CollapsePlain(w: string)
    requires AllLowerAlnum(w)
    ensures Collapse(w, LowerAlnum) == w
  {
    if w != [] {
      assert LowerAlnum.Has(w[0]);
      assert AllLowerAlnum(w[1..]) by {
        forall i | 0 <= i < |w[1..]| ensures LowerAlnum.Has(w[1..][i]) {
          assert w[1..][i] == w[i + 1];
        }
      }
      CollapsePlain(w[1..]);
    }
  }

  /** A key named `key_` followed by lower-case letters and digits has exactly those
      letters and digits as its slug. */
  lemma {:induction false} SlugOfPlainName(w: string)
    requires AllLowerAlnum(w)
    ensures Slug("key_" + w) == w
  {
    var n := "key_" + w;
    assert n[..3] == "key";
    assert LowerStr("key") == "key";
    assert n[3..][0] == '_' && n[3..][1..] == w;
    assert StripKeyPrefix(n) == w;
    LowerStrIdentity(w);
    CollapsePlain(w);
    forall i | 0 <= i < |w| ensures !IsSpace(w[i]) {
      assert LowerAlnum.Has(w[i]);
    }
    TrimIdentity(w);
  }

  /** The site's table is well formed. */
  lemma {:induction false} OverridesWellFormed()
    ensures WellFormedTable(Overrides)
  {
    OverridesAWellFormed();
    OverridesBWellFormed();
    OverridesCWellFormed();
    OverridesDWellFormed();
    OverridesEWellFormed();
    OverridesFWellFormed();
    WellFormedUnion(OverridesA, OverridesB);
    WellFormedUnion(OverridesA + OverridesB, OverridesC);
    WellFormedUnion(OverridesA + OverridesB + OverridesC, OverridesD);
    WellFormedUnion(OverridesA + OverridesB + OverridesC + OverridesD, OverridesE);
    WellFormedUnion(OverridesA + OverridesB + OverridesC + OverridesD + OverridesE, OverridesF);
  }

  lemma {:induction false} OverridesAWellFormed()
    ensures WellFormedTable(OverridesA)
  {
  }

  lemma {:induction false} OverridesBWellFormed()
    ensures WellFormedTable(OverridesB)
  {
  }

  lemma {:induction false} OverridesCWellFormed()
    ensures WellFormedTable(OverridesC)
  {
  }

  lemma {:induction false} OverridesDWellFormed()
    ensures WellFormedTable(OverridesD)
  {
  }

  lemma {:induction false} OverridesEWellFormed()
    ensures WellFormedTable(OverridesE)
  {
  }

  lemma {:induction false} OverridesFWellFormed()
    ensures WellFormedTable(OverridesF)
  {
  }

  lemma {:induction false} WellFormedUnion(t: map<string, string>, u: map<string, string>)
    requires WellFormedTable(t) && WellFormedTable(u)
    ensures WellFormedTable(t + u)
  {
  }

  /** Every entry of a well-formed table is reached by naming the key after it. */
  lemma {:induction false} OverrideReached(table: map<string, string>, k: string)
    requires WellFormedTable(table) && k in table
    ensures LabelFrom(table, "key_" + k) == table[k]
  {
    SlugOfPlainName(k);
  }

  // ---------------------------------------------------------------------------
  // Case does not matter

  lemma {:induction false} LowerStrTwice(s: string)
    ensures LowerStr(LowerStr(s)) == LowerStr(s)
  {
  }

  lemma {:induction false} StripKeyPrefixLower(s: string)
    ensures LowerStr(StripKeyPrefix(s)) == StripKeyPrefix(LowerStr(s))
  {
    var l := LowerStr(s);
    if |s| >= 3 {
      assert l[..3] == LowerStr(s[..3]);
      LowerStrTwice(s[..3]);
      assert LowerStr(l[..3]) == LowerStr(s[..3]);
      if LowerStr(s[..3]) == "key" {
        assert l[3..] == LowerStr(s[3..]);
        if |s| > 3 {
          assert l[3..][0] == Lower(s[3..][0]);
          assert IsPrefixSeparator(s[3..][0]) <==> IsPrefixSeparator(l[3..][0]);
          assert l[3..][1..] == LowerStr(s[3..][1..]);
        }
      }
    }
  }

  /** The caption does not depend on the case of the key name. */
  lemma {:induction false} LabelCaseInsensitive(table: map<string, string>, name: string)
    ensures LabelFrom(table, LowerStr(name)) == LabelFrom(table, name)
  {
    StripKeyPrefixLower(name);
    LowerStrTwice(StripKeyPrefix(name));
    assert Slug(LowerStr(name)) == Slug(name);
  }

  // ---------------------------------------------------------------------------
  // The words caption

  lemma {:induction false} LowerStrJoin(ws: seq<string>)
    ensures LowerStr(Join(ws, " ")) == Join(seq(|ws|, k requires 0 <= k < |ws| => LowerStr(ws[k])), " ")
  {
    var ls := seq(|ws|, k requires 0 <= k < |ws| => LowerStr(ws[k]));
    if |ws| > 1 {
      LowerStrJoin(ws[1..]);
      var rs := seq(|ws[1..]|, k requires 0 <= k < |ws[1..]| => LowerStr(ws[1..][k]));
      assert ls[1..] == rs;
      assert Join(ws, " ") == ws[0] + " " + Join(ws[1..], " ");
      LowerStrAppend(ws[0] + " ", Join(ws[1..], " "));
      LowerStrAppend(ws[0], " ");
      assert Join(ls, " ") == ls[0] + " " + Join(ls[1..], " ");
    }
  }

  lemma {:induction false} LowerCapitalize(w: string)
    requires w != [] && forall i :: 0 <= i < |w| ==> !IsUpperLetter(w[i])
    ensures LowerStr(Capitalize(w)) == w
    ensures IsUpperLetter(Capitalize(w)[0]) <==> IsLowerLetter(w[0])
  {
    var c := Capitalize(w);
    forall i | 0 <= i < |w| ensures LowerStr(c)[i] == w[i] {
      if i == 0 {
        assert Lower(Upper(w[0])) == Lower(w[0]) == w[0];
      } else {
        assert c[i] == w[i];
      }
    }
  }

  /** The capitalised words of a non-empty slug spell the slug again once lower-cased,
      and each word starts with a capital when it starts with a letter. */
  lemma {:induction false} WordsLabelOfSlug(slug: string)
    requires SingleSpaced(slug) && SlugChars(slug) && slug != []
    ensures var r := WordsLabel(slug);
      && LowerStr(r) == slug
      && (IsLowerLetter(slug[0]) ==> IsUpperLetter(r[0]))
  {
    var ws := Tokens(slug);
    TokensOfSingleSpaced(slug);
    JoinTokens(slug);
    var cs := CapitalizeAll(ws);
    LowerStrJoin(cs);
    var ls := seq(|cs|, k requires 0 <= k < |cs| => LowerStr(cs[k]));
    TokensLower(slug);
    forall k | 0 <= k < |ws| ensures ls[k] == ws[k] {
      LowerCapitalize(ws[k]);
    }
    assert ls == ws;
    assert Join(cs, " ") != [] by {
      assert LowerStr(Join(cs, " ")) == slug;
    }
    TokensHead(slug);
    LowerCapitalize(ws[0]);
    JoinHead(cs);
  }

  lemma {:induction false} JoinHead(ws: seq<string>)
    requires ws != [] && ws[0] != []
    ensures Join(ws, " ") != [] && Join(ws, " ")[0] == ws[0][0]
  {
  }

  /** The first token of non-empty single-spaced text starts where the text does. */
  lemma {:induction false} TokensHead(s: string)
    requires SingleSpaced(s) && s != []
    ensures Tokens(s) != [] && Tokens(s)[0] != [] && Tokens(s)[0][0] == s[0]
  {
    SingleSpacedSplit(s);
    assert TrimStart(s) == s;
  }

  /** The tokens of a slug have no upper-case letters. */
  lemma {:induction false} TokensLower(s: string)
    requires SingleSpaced(s) && SlugChars(s)
    ensures forall k, i :: 0 <= k < |Tokens(s)| && 0 <= i < |Tokens(s)[k]| ==> !IsUpperLetter(Tokens(s)[k][i])
    decreases |s|
  {
    if s != [] {
      SingleSpacedSplit(s);
      var w := LeadingWord(s);
      assert forall i :: 0 <= i < |w| ==> w[i] == s[i];
      if |w| < |s| {
        var sub := s[|w| + 1..];
        assert SlugChars(sub) by {
          forall i | 0 <= i < |sub| ensures IsLowerLetter(sub[i]) || IsDigit(sub[i]) || sub[i] == ' ' {
            assert sub[i] == s[|w| + 1 + i];
          }
        }
        TokensLower(sub);
      }
      TokensStep(s);
    }
  }

  /** Without an entry the caption is the slug with each word capitalised, or `—`
      exactly when the slug is empty; with a well-formed table the caption is never
      empty. */
  lemma {:induction false} LabelWithoutOverride(table: map<string, string>, name: string)
    ensures var slug := Slug(name);
      slug !in table && Compact(slug) !in table ==>
        var r := LabelFrom(table, name);
        && (slug == [] ==> r == Fallback)
        && (slug != [] ==>
              r != Fallback && LowerStr(r) == slug && (IsLowerLetter(slug[0]) ==> IsUpperLetter(r[0])))
    ensures WellFormedTable(table) ==> |LabelFrom(table, name)| > 0
  {
    var slug := Slug(name);
    SlugShape(name);
    if slug == [] {
      assert Tokens(slug) == [];
    } else {
      WordsLabelOfSlug(slug);
      assert LowerStr(Fallback) == Fallback;
      assert Fallback != slug by { assert !IsLowerLetter(Fallback[0]) && !IsDigit(Fallback[0]); }
    }
  }

  // ---------------------------------------------------------------------------
  // Names of one and two words

  /** The slug of `key_` + a word + one separator + a word is the two words with one
      space between them. */
  lemma {:induction false} SlugOfTwoWords(a: string, sep: char, b: string)
    requires a != [] && b != [] && AllLowerAlnum(a) && AllLowerAlnum(b)
    requires !LowerAlnum.Has(sep) && !IsUpperLetter(sep)
    ensures Slug("key_" + (a + [sep] + b)) == a + " " + b
  {
    StripKeyUnderscore(a + [sep] + b);
    CollapseTwoWords(a, sep, b);
    TrimTwoWords(a, b);
  }

  lemma {:induction false} StripKeyUnderscore(w: string)
    ensures StripKeyPrefix("key_" + w) == w
  {
    var n := "key_" + w;
    assert n[..3] == "key";
    assert LowerStr("key") == "key";
    assert n[3..][0] == '_' && n[3..][1..] == w;
  }

  lemma {:induction false} CollapseTwoWords(a: string, sep: char, b: string)
    requires a != [] && b != [] && AllLowerAlnum(a) && AllLowerAlnum(b)
    requires !LowerAlnum.Has(sep) && !IsUpperLetter(sep)
    ensures Collapse(LowerStr(a + [sep] + b), LowerAlnum) == a + " " + b
  {
    LowerStrIdentity(a + [sep] + b);
    CollapsePlain(b);
    CollapseSplit(a, sep, b);
  }

  /** Collapsing a word, one separator and a word that starts in the class. */
  lemma {:induction false} CollapseSplit(a: string, sep: char, b: string)
    requires AllLowerAlnum(a) && !LowerAlnum.Has(sep) && b != [] && LowerAlnum.Has(b[0])
    ensures Collapse(a + [sep] + b, LowerAlnum) == a + " " + Collapse(b, LowerAlnum)
  {
    if a == [] {
      var s := [sep] + b;
      assert s[1..] == b;
      assert DropOutside(b, LowerAlnum) == b;
    } else {
      var s := a + [sep] + b;
      assert s[0] == a[0] && s[1..] == a[1..] + [sep] + b;
      assert AllLowerAlnum(a[1..]) by {
        forall i | 0 <= i < |a[1..]| ensures LowerAlnum.Has(a[1..][i]) {
          assert a[1..][i] == a[i + 1];
        }
      }
      CollapseSplit(a[1..], sep, b);
    }
  }

  lemma {:induction false} TrimTwoWords(a: string, b: string)
    requires a != [] && b != [] && AllLowerAlnum(a) && AllLowerAlnum(b)
    ensures Trim(a + " " + b) == a + " " + b
  {
    var r := a + " " + b;
    assert !IsSpace(r[0]) by { assert r[0] == a[0]; assert LowerAlnum.Has(a[0]); }
    assert !IsSpace(r[|r| - 1]) by { assert r[|r| - 1] == b[|b| - 1]; assert LowerAlnum.Has(b[|b| - 1]); }
    TrimIdentity(r);
  }

  lemma {:induction false} NoSpacePlain(w: string)
    requires AllLowerAlnum(w)
    ensures NoSpace(w)
  {
    forall i | 0 <= i < |w| ensures !IsSpace(w[i]) {
      assert LowerAlnum.Has(w[i]);
    }
  }

  /** A one-word text is its own only token. */
  lemma {:induction false} TokensOfWord(w: string)
    requires w != [] && NoSpace(w)
    ensures Tokens(w) == [w]
  {
    assert TrimStart(w) == w;
    LeadingWordUpTo(w, |w|);
    assert w[..|w|] == w;
    assert w[|w|..] == [];
  }

  /** Two words with one space between them are two tokens. */
  lemma {:induction false} TokensOfTwoWords(a: string, b: string)
    requires a != [] && b != [] && NoSpace(a) && NoSpace(b)
    ensures Tokens(a + " " + b) == [a, b]
  {
    var s := a + " " + b;
    assert TrimStart(s) == s by { assert s[0] == a[0]; }
    assert NoSpace(s[..|a|]) by { assert s[..|a|] == a; }
    LeadingWordUpTo(s, |a|);
    assert s[..|a|] == a;
    var rest := s[|a|..];
    assert rest == " " + b;
    assert TrimStart(rest) == b by {
      assert rest[1..] == b;
      assert TrimStart(b) == b by { assert !IsSpace(b[0]); }
    }
    TokensOfWord(b);
  }

  /** A key named `key_` + one plain word gets that word's entry, or the word
      capitalised. */
  lemma {:induction false} LabelOfOneWord(table: map<string, string>, w: string)
    requires w != [] && AllLowerAlnum(w)
    ensures LabelFrom(table, "key_" + w) == if w in table then table[w] else Capitalize(w)
  {
    SlugOfPlainName(w);
    NoSpacePlain(w);
    RemoveSpacesNone(w);
    TokensOfWord(w);
    assert CapitalizeAll([w]) == [Capitalize(w)];
  }

  lemma {:induction false} CompactTwoWords(a: string, b: string)
    requires AllLowerAlnum(a) && AllLowerAlnum(b)
    ensures Compact(a + " " + b) == a + b
  {
    NoSpacePlain(a);
    NoSpacePlain(b);
    RemoveSpacesNone(a);
    RemoveSpacesNone(b);
    RemoveSpacesAppend(a + " ", b);
    RemoveSpacesAppend(a, " ");
    assert RemoveSpaces(" ") == [];
  }

  /** A key named `key_` + word + separator + word gets the entry of the two words
      run together, or both words capitalised: the slug itself holds a space, so it
      is never a key of a well-formed table. */
  lemma {:induction false} LabelOfTwoWords(table: map<string, string>, a: string, sep: char, b: string)
    requires WellFormedTable(table)
    requires a != [] && b != [] && AllLowerAlnum(a) && AllLowerAlnum(b)
    requires !LowerAlnum.Has(sep) && !IsUpperLetter(sep)
    ensures LabelFrom(table, "key_" + (a + [sep] + b)) ==
      if a + b in table then table[a + b] else Capitalize(a) + " " + Capitalize(b)
  {
    SlugOfTwoWords(a, sep, b);
    var slug := a + " " + b;
    assert !AllLowerAlnum(slug) by { assert slug[|a|] == ' '; }
    CompactTwoWords(a, b);
    TokensOfTwoWords(a, b);
    assert CapitalizeAll([a, b]) == [Capitalize(a), Capitalize(b)];
    assert Join([Capitalize(a), Capitalize(b)], " ") == Capitalize(a) + " " + Capitalize(b);
  }

  /** A name that is only the prefix, or has no letter or digit, gets `—`. */
  lemma {:induction false} LabelOfBareName(table: map<string, string>)
    requires WellFormedTable(table)
    ensures LabelFrom(table, "key_") == Fallback
  {
    assert StripKeyPrefix("key_") == [];
    assert Slug("key_") == [];
    assert Compact([]) == [];
    assert Tokens([]) == [];
  }

  /** A slug of one plain word that is not a key gets that word capitalised. */
  lemma {:induction false} OneWordSlug(table: map<string, string>, name: string)
    requires Slug(name) != [] && AllLowerAlnum(Slug(name)) && Slug(name) !in table
    ensures LabelFrom(table, name) == Capitalize(Slug(name))
  {
    var w := Slug(name);
    NoSpacePlain(w);
    RemoveSpacesNone(w);
    TokensOfWord(w);
    assert CapitalizeAll([w]) == [Capitalize(w)];
  }

  // ---------------------------------------------------------------------------
  // The site's table

  /** The keyboard's caption is never empty. */
  lemma {:induction false} SiteLabelNonEmpty(name: string)
    ensures |ComputeSkillLabel(name)| > 0
  {
    OverridesWellFormed();
    LabelWithoutOverride(Overrides, name);
  }

  /** Every caption of the site's table is shown by the key named after its entry. */
  lemma {:induction false} SiteOverrideReached(k: string)
    requires k in Overrides
    ensures ComputeSkillLabel("key_" + k) == Overrides[k]
  {
    OverridesWellFormed();
    OverrideReached(Overrides, k);
  }
}
