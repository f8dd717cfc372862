/** The `useProjects` hook (src/hooks/useProjects.js): the project list loaded from
    the bundled JSON and the memoised list filtered by the selected category. Unlike
    the DOM filter of the gallery, a project matches only when its `category` equals
    the filter string exactly. */
module UseProjects {
  import opened Wrappers
  import ProjectGrid
  import Text

  /** A project record; only its `category` field matters here (absent when the JSON
      entry has none). */
  datatype Project = Project(title: string, category: Option<string>)

  /** `useState("all")`. */
  const InitialFilter: string := "all"

  /** `p.category === filter`. */
  predicate HasCategory(p: Project, filter: string) {
    p.category == Some(filter)
  }

  /** The projects with `category === filter`, in order (`projects.filter(...)`). */
  function WithCategory(projects: seq<Project>, filter: string): (r: seq<Project>)
    ensures |r| <= |projects|
    ensures forall i :: 0 <= i < |r| ==> HasCategory(r[i], filter)
  {
    if projects == [] then []
    else
      var head := if HasCategory(projects[0], filter) then [projects[0]] else [];
      head + WithCategory(projects[1..], filter)
  }

  /** `filteredProjects`: the whole list for "all", else the projects of that
      category. */
  function FilteredProjects(projects: seq<Project>, filter: string): (r: seq<Project>)
    ensures filter == InitialFilter ==> r == projects
    ensures filter != InitialFilter ==> forall i :: 0 <= i < |r| ==> HasCategory(r[i], filter)
  {
    if filter == "all" then projects else WithCategory(projects, filter)
  }

  /** `a` is `b` with some elements removed, the rest kept in order. */
  predicate Subsequence(a: seq<Project>, b: seq<Project>)
    decreases |b|
  {
    if a == [] then true
    else if b == [] then false
    else (a[0] == b[0] && Subsequence(a[1..], b[1..])) || Subsequence(a, b[1..])
  }

  /** The number of projects with that category. */
  function CountCategory(projects: seq<Project>, filter: string): nat {
    if projects == [] then 0
    else (if HasCategory(projects[0], filter) then 1 else 0) + CountCategory(projects[1..], filter)
  }

  // ---------------------------------------------------------------------------
  // Properties

  lemma {:induction false} SubsequenceRefl(a: seq<Project>)
    ensures Subsequence(a, a)
  {
    if a != [] {
      SubsequenceRefl(a[1..]);
    }
  }

  /** The filtered list is a subsequence of the loaded projects. */
  lemma {:induction false} WithCategorySubsequence(projects: seq<Project>, filter: string)
    ensures Subsequence(WithCategory(projects, filter), projects)
  {
    if projects != [] {
      WithCategorySubsequence(projects[1..], filter);
      var a := WithCategory(projects, filter);
      if HasCategory(projects[0], filter) {
        assert a[0] == projects[0] && a[1..] == WithCategory(projects[1..], filter);
      } else if a != [] {
        assert a == WithCategory(projects[1..], filter);
      }
    }
  }

  lemma {:induction false} FilteredIsSubsequence(projects: seq<Project>, filter: string)
    ensures Subsequence(FilteredProjects(projects, filter), projects)
  {
    if filter == "all" {
      SubsequenceRefl(projects);
    } else {
      WithCategorySubsequence(projects, filter);
    }
  }

  /** Nothing with the category is dropped: as many projects come out as have it. */
  lemma {:induction false} WithCategoryCount(projects: seq<Project>, filter: string)
    ensures |WithCategory(projects, filter)| == CountCategory(projects, filter)
  {
    if projects != [] {
      WithCategoryCount(projects[1..], filter);
    }
  }

  /** A project is in the result exactly when it is loaded and has the category (or
      the filter is "all"). */
  lemma {:induction false} FilteredMembers(projects: seq<Project>, filter: string, p: Project)
    ensures p in FilteredProjects(projects, filter) <==>
      p in projects && (filter == InitialFilter || HasCategory(p, filter))
  {
    if filter != "all" {
      WithCategoryMembers(projects, filter, p);
    }
  }

  lemma {:induction false} WithCategoryMembers(projects: seq<Project>, filter: string, p: Project)
    ensures p in WithCategory(projects, filter) <==> p in projects && HasCategory(p, filter)
  {
    if projects != [] {
      WithCategoryMembers(projects[1..], filter, p);
      assert projects == [projects[0]] + projects[1..];
    }
  }

  /** Matching is exact equality, not the token inclusion of the gallery's DOM filter:
      a project of category "web mobile" is dropped by the filter "web", while a card
      with `data-project="web mobile"` matches it. */
  lemma {:induction false} ExactNotTokens()
    ensures FilteredProjects([Project("Site", Some("web mobile"))], "web") == []
    ensures ProjectGrid.Matches("web", ProjectGrid.Card(0, Some("web mobile"), false, false))
  {
    WebMobileNorm();
    WebMobileTokens();
  }

  lemma {:induction false} WebMobileNorm()
    ensures ProjectGrid.Helpers.Norm(Some("web mobile")) == "web mobile"
  {
    var s := "web mobile";
    Text.LowerStrIdentity(s);
    Text.TrimIdentity(s);
  }

  lemma {:induction false} WebMobileTokens()
    ensures Text.Tokens("web mobile") == ["web", "mobile"]
  {
    var a, b := "web", "mobile";
    assert Text.NoSpace(a) && Text.NoSpace(b);
    assert "web mobile" == a + [' '] + b;
    TwoWords(a, b);
  }

  /** Two words separated by one space are its two tokens. */
  lemma {:induction false} TwoWords(a: string, b: string)
    requires a != [] && b != [] && Text.NoSpace(a) && Text.NoSpace(b)
    ensures Text.Tokens(a + [' '] + b) == [a, b]
  {
    var s := a + [' '] + b;
    assert s[..|a|] == a;
    Text.LeadingWordUpTo(s, |a|);
    assert Text.TrimStart(s) == s;
    assert Text.Tokens(s) == [a] + Text.Tokens(s[|a|..]);
    var t := s[|a|..];
    assert t == [' '] + b && t[1..] == b;
    assert Text.TrimStart(t) == b;
    Text.TokensTrimStart(t);
    OneWord(b);
  }

  lemma {:induction false} OneWord(w: string)
    requires w != [] && Text.NoSpace(w)
    ensures Text.Tokens(w) == [w]
  {
    assert w[..|w|] == w;
    Text.LeadingWordUpTo(w, |w|);
    assert Text.TrimStart(w) == w;
    assert w[|w|..] == [];
  }
}
