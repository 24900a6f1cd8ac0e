/**
  `extract_skills` of python_resume_analyzer/app.py: every entry of the
  skills dictionary that occurs in the lower-cased text as a whole token, in
  its display spelling, sorted case-insensitively, with a few spellings
  normalized.
 */
module PySkills {
  import opened Text

  /** The dictionary `SKILLS`, in its order. */
  const Skills: seq<string> := [
    "python", "java", "javascript", "typescript", "sql", "c++", "c#", "go", "golang",
    "ruby", "php", "react", "angular", "vue", "node", "node.js", "django", "flask",
    "spring", "fastapi", "aws", "azure", "gcp", "docker", "kubernetes", "terraform",
    "postgresql", "mysql", "mongodb", "redis", "elasticsearch", "pandas", "numpy",
    "scikit-learn", "pytorch", "tensorflow"]

  /** The dictionary `normalize` of lines 95-101. */
  const Normalized: map<string, string> := map[
    "node" := "Node.js", "node.js" := "Node.js", "aws" := "AWS", "gcp" := "GCP", "sql" := "SQL"]

  predicate IsAsciiUpperCase(c: char) { 'A' <= c <= 'Z' }

  /** The class `[a-z0-9]` of the lookbehind and the lookahead. */
  predicate IsLowerAlnum(c: char) { 'a' <= c <= 'z' || '0' <= c <= '9' }

  /** The pattern `(?<![a-z0-9])skill(?![a-z0-9])` matches `lower` at `i`. */
  predicate SkillAt(lower: string, i: nat, skill: string) {
    && OccursAt(lower, i, skill)
    && (i == 0 || !IsLowerAlnum(lower[i - 1]))
    && (i + |skill| == |lower| || !IsLowerAlnum(lower[i + |skill|]))
  }

  /** `re.search(pattern, lower)` succeeds. */
  predicate SkillFound(lower: string, skill: string) {
    exists i | 0 <= i <= |lower| :: SkillAt(lower, i, skill)
  }

  /** `str.title` on ASCII: a letter is upper-cased after a non-letter and lower-cased after a letter. */
  function TitleFrom(s: string, afterLetter: bool): (r: string)
    ensures |r| == |s|
  {
    if |s| == 0 then ""
    else
      var c := s[0];
      [if !IsAsciiLetter(c) then c else if afterLetter then AsciiLower(c) else AsciiUpper(c)]
        + TitleFrom(s[1..], IsAsciiLetter(c))
  }

  function Title(s: string): string { TitleFrom(s, false) }

  /** The spelling added to `found` on line 94. */
  function Display(skill: string): string {
    if SomeChar(skill, IsAsciiUpperCase) then skill
    else if skill in {"c++", "c#"} then Title(skill)
    else Capitalize(skill)
  }

  /** `normalize.get(s.lower(), s)` */
  function NormalizeSkill(s: string): string {
    var k := Lower(s);
    if k in Normalized then Normalized[k] else s
  }

  /** The set `found` after the loop of lines 91-94 has looked at the first `n` entries of the dictionary `dict`. */
  function FoundUpTo(lower: string, dict: seq<string>, n: nat): set<string>
    requires n <= |dict|
  {
    if n == 0 then {}
    else
      var skill := dict[n - 1];
      FoundUpTo(lower, dict, n - 1) + (if SkillFound(lower, Lower(skill)) then {Display(skill)} else {})
  }

  /** The set `found` once the loop has looked at all of `dict`, for the text `cleaned`. */
  function FoundIn(cleaned: string, dict: seq<string>): set<string> {
    FoundUpTo(Lower(cleaned), dict, |dict|)
  }

  // ---------------------------------------------------------------- ordering

  /** Lexicographic order on code points, as Python compares strings. */
  predicate LexLess(a: string, b: string)
    decreases |a|
  {
    if |a| == 0 then |b| > 0
    else |b| > 0 && (a[0] < b[0] || (a[0] == b[0] && LexLess(a[1..], b[1..])))
  }

  /**
    The sort key `str.lower`, with ties (which the dictionary's entries do not
    produce) broken by the strings themselves.
   */
  predicate KeyLess(a: string, b: string) {
    LexLess(Lower(a), Lower(b)) || (Lower(a) == Lower(b) && LexLess(a, b))
  }

  lemma {:induction false} LexLessAsym(a: string, b: string)
    ensures !(LexLess(a, b) && LexLess(b, a))
    decreases |a|
  {
    if |a| > 0 && |b| > 0 && a[0] == b[0] {
      LexLessAsym(a[1..], b[1..]);
    }
  }

  lemma {:induction false} LexLessTrans(a: string, b: string, c: string)
    requires LexLess(a, b) && LexLess(b, c)
    ensures LexLess(a, c)
    decreases |a|
  {
    if |a| > 0 && a[0] == b[0] && b[0] == c[0] {
      LexLessTrans(a[1..], b[1..], c[1..]);
    }
  }

  lemma {:induction false} LexLessTotal(a: string, b: string)
    requires a != b
    ensures LexLess(a, b) || LexLess(b, a)
    decreases |a|
  {
    if |a| > 0 && |b| > 0 && a[0] == b[0] {
      assert a == [a[0]] + a[1..] && b == [b[0]] + b[1..];
      LexLessTotal(a[1..], b[1..]);
    }
  }

  /** The key order is a strict total order on strings. */
  lemma KeyLessOrder(a: string, b: string, c: string)
    ensures !(KeyLess(a, b) && KeyLess(b, a))
    ensures KeyLess(a, b) && KeyLess(b, c) ==> KeyLess(a, c)
    ensures a != b ==> KeyLess(a, b) || KeyLess(b, a)
  {
    LexLessAsym(Lower(a), Lower(b));
    LexLessAsym(a, b);
    if KeyLess(a, b) && KeyLess(b, c) {
      if LexLess(Lower(a), Lower(b)) && LexLess(Lower(b), Lower(c)) {
        LexLessTrans(Lower(a), Lower(b), Lower(c));
      } else if LexLess(a, b) && LexLess(b, c) {
        LexLessTrans(a, b, c);
      }
    }
    if a != b {
      LexLessTotal(a, b);
      if Lower(a) != Lower(b) {
        LexLessTotal(Lower(a), Lower(b));
      }
    }
  }

  /** `m` comes first in `s` under the key order. */
  predicate IsLeast(m: string, s: set<string>) {
    m in s && forall y :: y in s && y != m ==> KeyLess(m, y)
  }

  lemma {:induction false} LeastExists(s: set<string>)
    requires s != {}
    ensures exists m :: IsLeast(m, s)
    decreases |s|
  {
    var x :| x in s;
    if s - {x} == {} {
      assert s == {x};
      assert IsLeast(x, s);
    } else {
      LeastExists(s - {x});
      var m :| IsLeast(m, s - {x});
      if KeyLess(m, x) {
        forall y | y in s && y != m ensures KeyLess(m, y) {
          if y != x {
            assert KeyLess(m, y);
          }
        }
        assert IsLeast(m, s);
      } else {
        KeyLessOrder(x, m, m);
        forall y | y in s && y != x ensures KeyLess(x, y) {
          if y != m {
            KeyLessOrder(x, m, y);
          }
        }
        assert IsLeast(x, s);
      }
    }
  }

  lemma LeastUnique(m1: string, m2: string, s: set<string>)
    requires IsLeast(m1, s) && IsLeast(m2, s)
    ensures m1 == m2
  {
    KeyLessOrder(m1, m2, m1);
  }

  /** `sorted(s, key=str.lower)` */
  ghost function SortedSet(s: set<string>): seq<string>
    decreases |s|
  {
    if s == {} then []
    else
      LeastExists(s);
      var m :| IsLeast(m, s);
      [m] + SortedSet(s - {m})
  }

  /** The sorted sequence starts with the least element, followed by the rest sorted. */
  lemma SortedSetHead(s: set<string>)
    requires s != {}
    ensures |SortedSet(s)| > 0 && IsLeast(SortedSet(s)[0], s)
    ensures SortedSet(s) == [SortedSet(s)[0]] + SortedSet(s - {SortedSet(s)[0]})
  {
  }

  lemma SortedSetFirst(s: set<string>, m: string)
    requires IsLeast(m, s)
    ensures SortedSet(s) == [m] + SortedSet(s - {m})
  {
    SortedSetHead(s);
    LeastUnique(m, SortedSet(s)[0], s);
  }

  /** The sorted sequence holds each element of the set, once. */
  lemma {:induction false} SortedSetMembers(s: set<string>)
    ensures |SortedSet(s)| == |s|
    ensures forall x :: x in SortedSet(s) <==> x in s
    decreases |s|
  {
    if s != {} {
      SortedSetHead(s);
      var m := SortedSet(s)[0];
      SortedSetMembers(s - {m});
    }
  }

  /** The sorted sequence is in strictly increasing key order. */
  lemma {:induction false} SortedSetOrder(s: set<string>)
    ensures forall i, j :: 0 <= i < j < |SortedSet(s)| ==> KeyLess(SortedSet(s)[i], SortedSet(s)[j])
    decreases |s|
  {
    if s != {} {
      SortedSetHead(s);
      var r := SortedSet(s);
      var m := r[0];
      var rest := SortedSet(s - {m});
      SortedSetOrder(s - {m});
      SortedSetMembers(s - {m});
      forall i, j | 0 <= i < j < |r| ensures KeyLess(r[i], r[j]) {
        assert r[j] == rest[j - 1];
        if i > 0 {
          assert r[i] == rest[i - 1];
        } else {
          assert r[j] in s - {m};
        }
      }
    }
  }

  /** Sorts the set by picking its least element until none is left. */
  method SortByLower(found: set<string>) returns (sorted: seq<string>)
    ensures sorted == SortedSet(found)
  {
    sorted := [];
    var rest := found;
    while rest != {}
      invariant sorted + SortedSet(rest) == SortedSet(found)
      decreases |rest|
    {
      LeastExists(rest);
      var m :| IsLeast(m, rest);
      SortedSetFirst(rest, m);
      sorted := sorted + [m];
      rest := rest - {m};
    }
  }

  /** What `extract_skills` returns when its loop runs over the dictionary `dict`. */
  ghost function SkillsFrom(cleaned: string, dict: seq<string>): seq<string> {
    Map(SortedSet(FoundIn(cleaned, dict)), NormalizeSkill)
  }

  /** What `extract_skills` returns. */
  ghost function SkillsOf(cleaned: string): seq<string> {
    SkillsFrom(cleaned, Skills)
  }

  /** The loop of lines 91-94: each entry of `dict` whose pattern matches the lower-cased text adds its display spelling. */
  method FindSkills(cleaned: string, dict: seq<string>) returns (found: set<string>)
    ensures found == FoundIn(cleaned, dict)
  {
    found := {};
    var lower := Lower(cleaned);
    for i := 0 to |dict|
      invariant found == FoundUpTo(lower, dict, i)
    {
      var skill := dict[i];
      if SkillFound(lower, Lower(skill)) {
        found := found + {Display(skill)};
      }
    }
  }

  /** The body of `extract_skills` for the dictionary `dict`: the search loop, the sort and the normalization. */
  method ExtractSkillsFrom(cleaned: string, dict: seq<string>) returns (skills: seq<string>)
    ensures skills == SkillsFrom(cleaned, dict)
  {
    var found := FindSkills(cleaned, dict);
    var sorted := SortByLower(found);
    skills := Map(sorted, NormalizeSkill);
  }

  /** `extract_skills(cleaned)` over the dictionary `SKILLS`. */
  method ExtractSkills(cleaned: string) returns (skills: seq<string>)
    ensures skills == SkillsOf(cleaned)
  {
    skills := ExtractSkillsFrom(cleaned, Skills);
  }

  // ---------------------------------------------------------------- properties

  /** A spelling is in `found` exactly when one of the entries looked at so far matched and displays as it. */
  lemma {:induction false} FoundUpToMembers(lower: string, dict: seq<string>, n: nat, x: string)
    requires n <= |dict|
    ensures x in FoundUpTo(lower, dict, n) <==>
      exists i :: 0 <= i < n && SkillFound(lower, Lower(dict[i])) && x == Display(dict[i])
  {
    if n > 0 {
      FoundUpToMembers(lower, dict, n - 1, x);
    }
  }

  /** Each entry adds one spelling at most. */
  lemma {:induction false} FoundUpToSize(lower: string, dict: seq<string>, n: nat)
    requires n <= |dict|
    ensures |FoundUpTo(lower, dict, n)| <= n
  {
    if n > 0 {
      FoundUpToSize(lower, dict, n - 1);
    }
  }

  /** Mapping `norm` over the sorted set gives one element per element of the set, its image. */
  lemma SortedMapSpec(found: set<string>, norm: string -> string)
    ensures |Map(SortedSet(found), norm)| == |found|
    ensures forall x :: x in Map(SortedSet(found), norm) <==> exists y :: y in found && x == norm(y)
  {
    var sorted := SortedSet(found);
    var r := Map(sorted, norm);
    SortedSetMembers(found);
    forall x ensures x in r <==> exists y :: y in found && x == norm(y) {
      if x in r {
        var k :| 0 <= k < |r| && r[k] == x;
        assert sorted[k] in found;
      }
      if exists y :: y in found && x == norm(y) {
        var y :| y in found && x == norm(y);
        var k :| 0 <= k < |sorted| && sorted[k] == y;
        assert r[k] == x;
      }
    }
  }

  /** For a dictionary `dict`, the result has at most one entry per dictionary skill. */
  lemma SkillsFromSize(cleaned: string, dict: seq<string>)
    ensures |SkillsFrom(cleaned, dict)| <= |dict|
  {
    SortedMapSpec(FoundIn(cleaned, dict), NormalizeSkill);
    FoundUpToSize(Lower(cleaned), dict, |dict|);
  }

  /** The entries of the result are the normalized display spellings of the skills that occur in the text. */
  lemma SkillsFromMembers(cleaned: string, dict: seq<string>, x: string)
    ensures x in SkillsFrom(cleaned, dict) <==>
      exists i :: 0 <= i < |dict| && SkillFound(Lower(cleaned), Lower(dict[i])) && x == NormalizeSkill(Display(dict[i]))
  {
    var lower := Lower(cleaned);
    var found := FoundIn(cleaned, dict);
    SortedMapSpec(found, NormalizeSkill);
    if x in SkillsFrom(cleaned, dict) {
      var y :| y in found && x == NormalizeSkill(y);
      FoundUpToMembers(lower, dict, |dict|, y);
    }
    if exists i :: 0 <= i < |dict| && SkillFound(lower, Lower(dict[i])) && x == NormalizeSkill(Display(dict[i])) {
      var i :| 0 <= i < |dict| && SkillFound(lower, Lower(dict[i])) && x == NormalizeSkill(Display(dict[i]));
      FoundUpToMembers(lower, dict, |dict|, Display(dict[i]));
    }
  }

  /** The result is empty exactly when no skill of the dictionary occurs in the text. */
  lemma SkillsFromEmpty(cleaned: string, dict: seq<string>)
    ensures SkillsFrom(cleaned, dict) == [] <==>
      forall i :: 0 <= i < |dict| ==> !SkillFound(Lower(cleaned), Lower(dict[i]))
  {
    var r := SkillsFrom(cleaned, dict);
    if r != [] {
      SkillsFromMembers(cleaned, dict, r[0]);
    }
    if exists i :: 0 <= i < |dict| && SkillFound(Lower(cleaned), Lower(dict[i])) {
      var i :| 0 <= i < |dict| && SkillFound(Lower(cleaned), Lower(dict[i]));
      SkillsFromMembers(cleaned, dict, NormalizeSkill(Display(dict[i])));
    }
  }

  /**
    The result is the normalization, entry by entry, of the found spellings
    in strictly increasing key order.
   */
  lemma SkillsFromOrder(cleaned: string, dict: seq<string>)
    ensures var sorted := SortedSet(FoundIn(cleaned, dict));
      && |SkillsFrom(cleaned, dict)| == |sorted|
      && (forall i :: 0 <= i < |sorted| ==> SkillsFrom(cleaned, dict)[i] == NormalizeSkill(sorted[i]))
      && (forall i, j :: 0 <= i < j < |sorted| ==> KeyLess(sorted[i], sorted[j]))
  {
    SortedSetOrder(FoundIn(cleaned, dict));
  }

  /** The display spelling differs from the dictionary's only in case, so the sort key is the lower-cased entry. */
  lemma DisplayKey(skill: string)
    ensures Lower(Display(skill)) == Lower(skill)
  {
    if !SomeChar(skill, IsAsciiUpperCase) {
      if skill in {"c++", "c#"} {
        TitleKey(skill, false);
      } else if |skill| > 0 {
        var r := Capitalize(skill);
        assert r == [AsciiUpper(skill[0])] + Lower(skill[1..]);
        assert Lower(r)[0] == Lower(skill)[0];
        assert forall k :: 1 <= k < |skill| ==> Lower(r)[k] == Lower(skill)[k];
      }
    }
  }

  lemma TitleKey(s: string, afterLetter: bool)
    ensures Lower(TitleFrom(s, afterLetter)) == Lower(s)
  {
    if |s| > 0 {
      TitleKey(s[1..], IsAsciiLetter(s[0]));
      var r := TitleFrom(s, afterLetter);
      assert Lower(r)[0] == Lower(s)[0];
      assert forall k :: 1 <= k < |s| ==> Lower(r)[k] == Lower(TitleFrom(s[1..], IsAsciiLetter(s[0])))[k - 1];
    }
  }

  /** Two elements of the set with the same image give that image twice after sorting and mapping. */
  lemma ImageTwice(found: set<string>, x: string, y: string, norm: string -> string) returns (a: nat, b: nat)
    requires x in found && y in found && x != y && norm(x) == norm(y)
    ensures a < b < |Map(SortedSet(found), norm)|
    ensures Map(SortedSet(found), norm)[a] == norm(x) && Map(SortedSet(found), norm)[b] == norm(x)
  {
    var sorted := SortedSet(found);
    SortedSetMembers(found);
    var i :| 0 <= i < |sorted| && sorted[i] == x;
    var j :| 0 <= j < |sorted| && sorted[j] == y;
    if i < j {
      a, b := i, j;
    } else {
      a, b := j, i;
    }
  }

  /**
    Two different display spellings of matching entries that normalize alike
    make the result repeat that normalized spelling.
   */
  lemma RepeatWhenBothMatch(cleaned: string, dict: seq<string>, p: nat, q: nat) returns (a: nat, b: nat)
    requires p < |dict| && q < |dict|
    requires SkillFound(Lower(cleaned), Lower(dict[p])) && SkillFound(Lower(cleaned), Lower(dict[q]))
    requires Display(dict[p]) != Display(dict[q])
    requires NormalizeSkill(Display(dict[p])) == NormalizeSkill(Display(dict[q]))
    ensures a < b < |SkillsFrom(cleaned, dict)|
    ensures SkillsFrom(cleaned, dict)[a] == NormalizeSkill(Display(dict[p]))
    ensures SkillsFrom(cleaned, dict)[b] == NormalizeSkill(Display(dict[p]))
  {
    var lower := Lower(cleaned);
    FoundUpToMembers(lower, dict, |dict|, Display(dict[p]));
    FoundUpToMembers(lower, dict, |dict|, Display(dict[q]));
    a, b := ImageTwice(FoundIn(cleaned, dict), Display(dict[p]), Display(dict[q]), NormalizeSkill);
  }

  /** Where "node.js" matches as a token, so does "node": the '.' after it is not in `[a-z0-9]`. */
  lemma NodeMatches(lower: string, i: nat)
    requires SkillAt(lower, i, "node.js")
    ensures SkillAt(lower, i, "node")
  {
    assert lower[i..i + 4] == "node" by {
      assert lower[i..i + 4] == lower[i..i + 7][..4];
    }
    assert lower[i + 4] == '.' by {
      assert lower[i + 4] == lower[i..i + 7][4];
    }
  }

  lemma NodeEntries()
    ensures Skills[14] == "node" && Skills[15] == "node.js"
  {
  }

  lemma LowerNode()
    ensures Lower("node") == "node" && Lower("node.js") == "node.js"
  {
    assert Lower("node") == "node";
    assert Lower("node.js") == "node.js";
  }

  lemma DisplayNode()
    ensures Display("node") == "Node"
  {
    assert Lower("ode") == "ode";
  }

  lemma DisplayNodeJs()
    ensures Display("node.js") == "Node.js"
  {
    var w := "node.js";
    assert !SomeChar(w, IsAsciiUpperCase) by {
      assert forall k :: 0 <= k < |w| ==> !IsAsciiUpperCase(w[k]);
    }
    assert w !in {"c++", "c#"};
    assert Lower("ode.js") == "ode.js";
    assert Capitalize(w) == "Node.js";
  }

  lemma NormalizeNode()
    ensures NormalizeSkill("Node") == "Node.js"
  {
    assert Lower("Node") == "node";
  }

  lemma NormalizeNodeJs()
    ensures NormalizeSkill("Node.js") == "Node.js"
  {
    assert Lower("Node.js") == "node.js";
  }

  /**
    A text that mentions "node.js" as a token makes both "node" and
    "node.js" match, and both spellings normalize to "Node.js": the result
    names that skill twice.
   */
  lemma NodeJsTwice(cleaned: string, i: nat)
    requires SkillAt(Lower(cleaned), i, "node.js")
    ensures exists a, b ::
      0 <= a < b < |SkillsOf(cleaned)| && SkillsOf(cleaned)[a] == "Node.js" && SkillsOf(cleaned)[b] == "Node.js"
  {
    var p, q := 14, 15;
    var node, nodeJs := Skills[p], Skills[q];
    NodeEntries();
    LowerNode();
    DisplayNode();
    DisplayNodeJs();
    NormalizeNode();
    NormalizeNodeJs();
    NodeMatches(Lower(cleaned), i);
    assert SkillFound(Lower(cleaned), Lower(node)) && SkillFound(Lower(cleaned), Lower(nodeJs));
    assert Display(node) != Display(nodeJs);
    assert NormalizeSkill(Display(node)) == "Node.js" == NormalizeSkill(Display(nodeJs));
    var a, b := RepeatWhenBothMatch(cleaned, Skills, p, q);
    assert SkillsOf(cleaned)[a] == "Node.js" && SkillsOf(cleaned)[b] == "Node.js";
  }
}
