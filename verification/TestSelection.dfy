/** Which test cases a specification selects, whatever the case of letters. */
module TestSelection {
  import opened Strings
  import opened TestSpec
  import opened TestSpecTheorems
  import TestSpecNames
  import opened TestCaseInfo

  // ----- letters of either case -----

  predicate SameLetter(a: char, b: char) {
    a == b || ('A' <= a <= 'Z' && b == a - 'A' + 'a') || ('A' <= b <= 'Z' && a == b - 'A' + 'a')
  }

  /** Two texts that differ at most in the case of their letters. */
  predicate SameLetters(a: string, b: string) {
    |a| == |b| && forall i :: 0 <= i < |a| ==> SameLetter(a[i], b[i])
  }

  lemma SameLower(a: string, b: string)
    ensures ToLower(a) == ToLower(b) <==> SameLetters(a, b)
  {
    if |a| == |b| {
      forall i | 0 <= i < |a| ensures ToLower(a)[i] == ToLower(b)[i] <==> SameLetter(a[i], b[i]) {
      }
    }
  }

  /** Whether a text matches a pattern in which every star stands for any text and letters for
      both their cases. */
  ghost predicate Resembles(pattern: string, s: string)
    decreases |pattern|
  {
    if pattern == "" then s == ""
    else if pattern[0] == '*' then exists k: nat :: k <= |s| && Resembles(pattern[1..], s[k..])
    else s != "" && SameLetter(pattern[0], s[0]) && Resembles(pattern[1..], s[1..])
  }

  lemma LowerTail(s: string, k: nat)
    requires k <= |s|
    ensures ToLower(s)[k..] == ToLower(s[k..])
  {
  }

  lemma {:induction false} GlobOfLower(pattern: string, s: string)
    ensures Glob(ToLower(pattern), ToLower(s)) <==> Resembles(pattern, s)
    decreases |pattern|
  {
    if pattern == "" {
    } else {
      LowerTail(pattern, 1);
      if pattern[0] == '*' {
        forall k: nat | k <= |s| ensures Glob(ToLower(pattern)[1..], ToLower(s)[k..]) <==> Resembles(pattern[1..], s[k..]) {
          LowerTail(s, k);
          GlobOfLower(pattern[1..], s[k..]);
        }
      } else if s != "" {
        LowerTail(s, 1);
        GlobOfLower(pattern[1..], s[1..]);
      }
    }
  }

  /** A name pattern covers a text in which its letters appear, in either case, with other text in
      front of them or behind them only where a star was taken off the pattern. */
  ghost predicate Covers(pattern: string, s: string) {
    exists k: nat :: AppearsAt(pattern, s, k)
  }

  predicate AppearsAt(pattern: string, s: string, k: nat) {
    var core := Core(pattern);
    && k + |core| <= |s| && SameLetters(s[k..k + |core|], core)
    && (StartsWith(pattern, "*") || k == 0)
    && (EndsWith(TestCaseInfo.Behind(pattern), "*") || k + |core| == |s|)
  }

  /** Reading a pattern in lower case leaves the stars where they are. */
  lemma LowerCore(pattern: string)
    ensures Core(ToLower(pattern)) == ToLower(Core(pattern))
    ensures '*' in ToLower(Core(pattern)) <==> '*' in Core(pattern)
    ensures StartsWith(ToLower(pattern), "*") <==> StartsWith(pattern, "*")
    ensures EndsWith(TestCaseInfo.Behind(ToLower(pattern)), "*") <==> EndsWith(TestCaseInfo.Behind(pattern), "*")
  {
    StarInFront(pattern);
    var p := TestCaseInfo.Behind(pattern);
    StarAtBack(p);
    StarsOfLower(Core(pattern));
  }

  lemma StarInFront(s: string)
    ensures StartsWith(ToLower(s), "*") <==> StartsWith(s, "*")
    ensures StartsWith(s, "*") ==> ToLower(s)[1..] == ToLower(s[1..])
  {
    if s != "" {
      assert s[..1] == [s[0]] && ToLower(s)[..1] == [ToLower(s)[0]];
      LowerTail(s, 1);
    }
  }

  lemma StarAtBack(s: string)
    ensures EndsWith(ToLower(s), "*") <==> EndsWith(s, "*")
    ensures EndsWith(s, "*") ==> ToLower(s)[..|s| - 1] == ToLower(s[..|s| - 1])
  {
    if s != "" {
      assert s[|s| - 1..] == [s[|s| - 1]] && ToLower(s)[|s| - 1..] == [ToLower(s)[|s| - 1]];
    }
  }

  lemma StarsOfLower(s: string)
    ensures '*' in ToLower(s) <==> '*' in s
  {
    var lower := ToLower(s);
    if '*' in s {
      var i :| 0 <= i < |s| && s[i] == '*';
      assert lower[i] == '*';
    }
    if '*' in lower {
      var i :| 0 <= i < |lower| && lower[i] == '*';
      assert s[i] == '*';
    }
  }

  // ----- what a filter selects -----

  /** The test case has a tag with these letters. */
  predicate Carries(info: Info, tag: string) {
    exists t <- info.tags :: SameLetters(t, tag)
  }

  /** What a test case is described by follows from its tags. */
  predicate Proper(info: Info) { info == WithTags(info.name, info.desc, info.tags) }

  /** What a filter asks of a test case: every tag it lists plainly, none of those it excludes, and
      a name that every plain name pattern covers and no excluded one does. */
  ghost predicate Meets(info: Info, f: Filter) {
    && (forall p <- f :: p.kind == TagToken && !p.excluded ==> Carries(info, p.token))
    && (forall p <- f :: p.kind == TagToken && p.excluded ==> !Carries(info, p.token))
    && (forall p <- f :: p.kind == NameToken && !p.excluded ==> Covers(p.token, info.name))
    && (forall p <- f :: p.kind == NameToken && p.excluded ==> !Covers(p.token, info.name))
  }

  lemma MadeIsProper(name: string, descOrTags: string)
    requires Made(name, descOrTags).Some?
    ensures Proper(Made(name, descOrTags).value)
  {
  }

  lemma TagCarried(info: Info, tag: string)
    requires Proper(info)
    ensures ToLower(tag) in info.lcaseTags <==> Carries(info, tag)
  {
    forall t | t in info.tags ensures ToLower(t) == ToLower(tag) <==> SameLetters(t, tag) {
      SameLower(t, tag);
    }
  }

  lemma AppearsInLower(pattern: string, s: string, k: nat)
    requires k + |Core(pattern)| <= |s|
    ensures OccursAt(ToLower(s), ToLower(Core(pattern)), k) <==> SameLetters(s[k..k + |Core(pattern)|], Core(pattern))
  {
    var core := Core(pattern);
    hide Core;
    assert ToLower(s)[k..k + |core|] == ToLower(s[k..k + |core|]);
    SameLower(s[k..k + |core|], core);
  }

  lemma NameCovered(pattern: string, s: string)
    ensures WildcardMatches(ToLower(pattern), ToLower(s)) <==> Covers(pattern, s)
  {
    LowerCore(pattern);
    var core, text := Core(pattern), ToLower(s);
    hide Core, ToLower, TestCaseInfo.Behind, SameLetters;
    forall k: nat | k + |core| <= |s|
      ensures OccursAt(text, ToLower(core), k) <==> SameLetters(s[k..k + |core|], core)
    {
      AppearsInLower(pattern, s, k);
    }
    if WildcardMatches(ToLower(pattern), text) {
      var k := if EndsWith(TestCaseInfo.Behind(pattern), "*") then (if StartsWith(pattern, "*") then Find(text, ToLower(core), 0) else 0)
               else |s| - |core|;
      assert OccursAt(text, ToLower(core), k);
      assert AppearsAt(pattern, s, k);
    }
    if Covers(pattern, s) {
      var k: nat :| AppearsAt(pattern, s, k);
      assert OccursAt(text, ToLower(core), k);
    }
  }

  /** With no star left inside, that is what the stars suggest. */
  lemma CoversIsResembles(pattern: string, s: string)
    requires '*' !in Core(pattern)
    ensures Covers(pattern, s) <==> Resembles(pattern, s)
  {
    NameCovered(pattern, s);
    LowerCore(pattern);
    PatternIsGlobIffNoStarInside(ToLower(pattern));
    hide WildcardMatches, Glob, Core, Resembles, Covers;
    GlobOfLower(pattern, s);
  }

  lemma FilterSelects(f: Filter, info: Info)
    requires Proper(info)
    ensures FilterMatches(f, info) <==> Meets(info, f)
  {
    hide Proper, WithTags, WildcardMatches, Carries, Covers, ToLower;
    forall p | p in f
      ensures PatternMatches(p, info) <==>
                ((if p.kind == NameToken then Covers(p.token, info.name) else Carries(info, p.token)) <==> !p.excluded)
    {
      if p.kind == NameToken {
        NameCovered(p.token, info.name);
      } else {
        TagCarried(info, p.token);
      }
    }
  }

  /** A specification selects the test cases that meet one of its filters. */
  lemma SpecSelects(spec: seq<Filter>, info: Info)
    requires Proper(info)
    ensures SpecMatches(spec, info) <==> exists f <- spec :: Meets(info, f)
  {
    hide Proper, FilterMatches, Meets;
    forall f | f in spec ensures FilterMatches(f, info) <==> Meets(info, f) {
      FilterSelects(f, info);
    }
  }

  /** Written down and parsed, a specification of printable filters selects just those. */
  lemma ParsedSpecSelects(spec: seq<Filter>, info: Info)
    requires Proper(info) && PrintableSpec(spec)
    ensures SpecMatches(Filters(SpecText(spec)), info) <==> exists f <- spec :: Meets(info, f)
  {
    hide Filters, SpecMatches, Meets, Proper;
    SpecRoundTrip(spec);
    SpecSelects(spec, info);
  }

  /** An excluded tag selects exactly the test cases that do not carry it. */
  lemma ExcludedTagSelects(tag: string, info: Info)
    requires Proper(info) && tag != "" && ']' !in tag && !StartsWith(tag, "exclude:")
    ensures SpecMatches(Filters("~[" + tag + "]"), info) <==> !Carries(info, tag)
    ensures SpecMatches(Filters("[" + tag + "]"), info) <==> Carries(info, tag)
  {
    OneTagSelects(Pattern(TagToken, tag, true), info);
    OneTagSelects(Pattern(TagToken, tag, false), info);
  }

  lemma OneTagSelects(p: Pattern, info: Info)
    requires Proper(info) && p.kind == TagToken && Printable(p)
    ensures SpecMatches(Filters((if p.excluded then "~[" else "[") + p.token + "]"), info) <==> (Carries(info, p.token) <==> !p.excluded)
  {
    var f := [p];
    assert f[1..] == [] && FilterText(f) == PatternText(p) + "" && SpecText([f]) == FilterText(f);
    assert SpecText([f]) == (if p.excluded then "~[" else "[") + p.token + "]";
    hide Filters, FilterText, PatternText, Proper, Carries, SpecMatches;
    assert f in [f];
    ParsedSpecSelects([f], info);
    assert Meets(info, f) <==> (Carries(info, p.token) <==> !p.excluded) by {
      assert p in f;
    }
  }

  /** A name without quotes selects exactly the test cases with a name it covers, and excluded
      exactly the others. */
  lemma NameSelects(name: string, info: Info)
    requires Proper(info) && TestSpecNames.PlainName(name) && !StartsWith(name, "exclude:")
    ensures SpecMatches(Filters(name), info) <==> Covers(name, info.name)
    ensures SpecMatches(Filters("~" + name), info) <==> !Covers(name, info.name)
  {
    TestSpecNames.NameAlone(name);
    var plain, excluded := Pattern(NameToken, name, false), Pattern(NameToken, name, true);
    assert plain in [plain] && excluded in [excluded];
    hide Filters, Proper, Covers, SpecMatches, TestSpecNames.PlainName;
    SpecSelects([[plain]], info);
    SpecSelects([[excluded]], info);
    assert [plain] in [[plain]] && [excluded] in [[excluded]];
  }

  /** The printed tags of a test case select exactly the test cases that have them all, whatever
      the case of their letters. */
  lemma PrintedTagsSelectCarriers(name: string, descOrTags: string, other: Info)
    requires Made(name, descOrTags).Some? && Proper(other)
    requires var tags := Made(name, descOrTags).value.tags;
             tags != [] && forall t <- tags :: t != "" && !StartsWith(t, "exclude:")
    ensures var info := Made(name, descOrTags).value;
            SpecMatches(Filters(info.tagsAsString), other) <==> forall t <- info.tags :: Carries(other, t)
  {
    PrintedTagsSelect(name, descOrTags, other);
    MadeIsSettled(name, descOrTags);
    var info := Made(name, descOrTags).value;
    hide Made, Filters, SpecMatches, Settled;
    forall t | t in info.tags ensures ToLower(t) in other.lcaseTags <==> Carries(other, t) {
      TagCarried(other, t);
    }
    assert info.lcaseTags == set t | t in info.tags :: ToLower(t);
  }
}
