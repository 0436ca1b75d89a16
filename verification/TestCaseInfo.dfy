/** Test cases: reading tags from a description, printing them, and selecting test cases. */
module TestCaseInfo {
  import opened Options
  import opened Strings
  import opened TestSpec
  import opened TestSpecTheorems

  // ----- letters -----

  function ToLowerCh(c: char): char {
    if 'A' <= c <= 'Z' then c - 'A' + 'a' else c
  }

  function ToLower(s: string): (r: string)
    ensures |r| == |s| && forall i :: 0 <= i < |s| ==> r[i] == ToLowerCh(s[i])
  {
    seq(|s|, i requires 0 <= i < |s| => ToLowerCh(s[i]))
  }

  predicate IsAlnum(c: char) { '0' <= c <= '9' || 'A' <= c <= 'Z' || 'a' <= c <= 'z' }

  // ----- tags -----

  datatype SpecialTag = Plain | IsHidden | Throws | ShouldFail | MayFail

  function ParseSpecialTag(tag: string): SpecialTag {
    if StartsWith(tag, ".") || tag == "hide" || tag == "!hide" then IsHidden
    else if tag == "!throws" then Throws
    else if tag == "!shouldfail" then ShouldFail
    else if tag == "!mayfail" then MayFail
    else Plain
  }

  /** Tags that end the program when a test case is registered with them. */
  predicate IsReserved(tag: string) {
    ParseSpecialTag(tag).Plain? && tag != "" && !IsAlnum(tag[0])
  }

  /** The order of `std::string`. */
  predicate Less(s: string, t: string) {
    if t == "" then false
    else if s == "" then true
    else s[0] < t[0] || (s[0] == t[0] && Less(s[1..], t[1..]))
  }

  /** The first k characters agree, and then `s` ends or goes on with a smaller one. */
  predicate DiffersAt(s: string, t: string, k: nat) {
    && k <= |s| && k < |t| && s[..k] == t[..k]
    && (k == |s| || s[k] < t[k])
  }

  lemma {:induction false} LessIsLexicographic(s: string, t: string)
    ensures Less(s, t) <==> exists k: nat :: DiffersAt(s, t, k)
    decreases |s|
  {
    if Less(s, t) {
      if s != "" && s[0] == t[0] {
        LessIsLexicographic(s[1..], t[1..]);
        var k: nat :| DiffersAt(s[1..], t[1..], k);
        assert s[..k + 1] == [s[0]] + s[1..][..k] && t[..k + 1] == [t[0]] + t[1..][..k];
        assert DiffersAt(s, t, k + 1);
      } else {
        assert DiffersAt(s, t, 0);
      }
    }
    if k: nat :| DiffersAt(s, t, k) {
      if k > 0 {
        assert s[..k][0] == t[..k][0] && s[1..][..k - 1] == s[..k][1..] && t[1..][..k - 1] == t[..k][1..];
        assert DiffersAt(s[1..], t[1..], k - 1);
        LessIsLexicographic(s[1..], t[1..]);
      }
    }
  }

  /** Inserting into an ordered set kept as a sequence. */
  function Insert(tags: seq<string>, tag: string): (r: seq<string>)
    ensures forall t :: t in r <==> t in tags || t == tag
  {
    if tags == [] then [tag]
    else if tags[0] == tag then tags
    else if Less(tag, tags[0]) then [tag] + tags
    else
      var rest := Insert(tags[1..], tag);
      assert forall t :: t in tags <==> t == tags[0] || t in tags[1..];
      [tags[0]] + rest
  }

  /** As a set is kept: in ascending order, without repetitions. */
  predicate Ordered(tags: seq<string>) {
    |tags| >= 2 ==> Less(tags[0], tags[1]) && Ordered(tags[1..])
  }

  lemma {:induction false} LessIsTotal(s: string, t: string)
    ensures s == t || Less(s, t) || Less(t, s)
    ensures Less(s, t) ==> !Less(t, s) && s != t
    decreases |s|
  {
    if s != "" && t != "" {
      LessIsTotal(s[1..], t[1..]);
      assert s == [s[0]] + s[1..] && t == [t[0]] + t[1..];
    }
  }

  lemma {:induction false} LessIsTransitive(s: string, t: string, u: string)
    requires Less(s, t) && Less(t, u)
    ensures Less(s, u)
    decreases |s|
  {
    if s != "" && s[0] == t[0] == u[0] {
      LessIsTransitive(s[1..], t[1..], u[1..]);
    }
  }

  lemma {:induction false} InsertKeepsOrder(tags: seq<string>, tag: string)
    requires Ordered(tags)
    ensures Ordered(Insert(tags, tag))
    ensures Insert(tags, tag) != [] && (Insert(tags, tag)[0] == tag || (tags != [] && Insert(tags, tag)[0] == tags[0]))
  {
    if tags != [] && tags[0] != tag {
      LessIsTotal(tags[0], tag);
      if Less(tag, tags[0]) {
        assert ([tag] + tags)[1..] == tags;
      } else {
        InsertKeepsOrder(tags[1..], tag);
        assert ([tags[0]] + Insert(tags[1..], tag))[1..] == Insert(tags[1..], tag);
      }
    }
  }

  lemma {:induction false} FirstIsLeast(tags: seq<string>, tag: string)
    requires Ordered(tags) && tag in tags
    ensures tag == tags[0] || Less(tags[0], tag)
    ensures tag in tags[1..] ==> Less(tags[0], tag)
  {
    if tag in tags[1..] {
      FirstIsLeast(tags[1..], tag);
      if tag != tags[1] {
        LessIsTransitive(tags[0], tags[1], tag);
      }
    }
  }

  lemma FirstIsElement(tags: seq<string>)
    requires tags != []
    ensures tags[0] in tags
  {
  }

  /** A set of tags has one ordered form only. */
  lemma {:induction false} OrderedIsUnique(a: seq<string>, b: seq<string>)
    requires Ordered(a) && Ordered(b) && forall t :: t in a <==> t in b
    ensures a == b
  {
    if a == [] {
      if b != [] {
        FirstIsElement(b);
        assert false;
      }
    } else {
      assert a[0] in b && b != [] && b[0] in a;
      FirstIsLeast(a, b[0]);
      FirstIsLeast(b, a[0]);
      LessIsTotal(a[0], b[0]);
      forall t ensures t in a[1..] <==> t in b[1..] {
        if t in a[1..] {
          FirstIsLeast(a, t);
          LessIsTotal(a[0], t);
          assert t in b;
        }
        if t in b[1..] {
          FirstIsLeast(b, t);
          LessIsTotal(b[0], t);
          assert t in a;
        }
      }
      OrderedIsUnique(a[1..], b[1..]);
      assert a == [a[0]] + a[1..] && b == [b[0]] + b[1..];
    }
  }

  /** Where reading a description stands; a reserved tag makes it fail for good. */
  datatype Reading = Reading(inTag: bool, tag: string, desc: string, tags: seq<string>, hidden: bool, failed: bool)

  function ReadChar(r: Reading, c: char): Reading {
    if !r.inTag then
      if c == '[' then r.(inTag := true) else r.(desc := r.desc + [c])
    else if c == ']' then
      r.(inTag := false, tag := "", tags := Insert(r.tags, r.tag),
         hidden := r.hidden || ParseSpecialTag(r.tag).IsHidden?, failed := r.failed || IsReserved(r.tag))
    else r.(tag := r.tag + [c])
  }

  function ReadAll(r: Reading, s: string): Reading
    decreases |s|
  {
    if s == "" then r else ReadAll(ReadChar(r, s[0]), s[1..])
  }

  function Begin(name: string): Reading {
    Reading(false, "", "", [], StartsWith(name, "./"), false)
  }

  function Finished(r: Reading): seq<string> {
    if r.hidden then Insert(Insert(r.tags, "hide"), ".") else r.tags
  }

  datatype Info = Info(
    name: string, desc: string, tags: seq<string>, lcaseTags: set<string>, tagsAsString: string, properties: set<SpecialTag>)

  function TagText(tags: seq<string>): string {
    if tags == [] then "" else "[" + tags[0] + "]" + TagText(tags[1..])
  }

  function WithTags(name: string, desc: string, tags: seq<string>): Info {
    Info(name, desc, tags, set t | t in tags :: ToLower(t), TagText(tags), (set t | t in tags :: ParseSpecialTag(ToLower(t))) - {Plain})
  }

  /** Registering a test case; None if it has a reserved tag. */
  function Made(name: string, descOrTags: string): Option<Info> {
    var r := ReadAll(Begin(name), descOrTags);
    if r.failed then Option.None else Some(WithTags(name, r.desc, Finished(r)))
  }

  lemma {:induction false} ReadAllAppend(r: Reading, s: string, t: string)
    ensures ReadAll(r, s + t) == ReadAll(ReadAll(r, s), t)
    decreases |s|
  {
    if s == "" {
      assert s + t == t;
    } else {
      assert (s + t)[1..] == s[1..] + t;
      ReadAllAppend(ReadChar(r, s[0]), s[1..], t);
    }
  }

  method MakeTestCase(name: string, descOrTags: string) returns (info: Option<Info>)
    ensures info == Made(name, descOrTags)
  {
    var isHidden := StartsWith(name, "./");
    var tags: seq<string>, desc, tag, inTag := [], "", "", false;
    var i := 0;
    while i < |descOrTags|
      invariant 0 <= i <= |descOrTags|
      invariant ReadAll(Begin(name), descOrTags[..i]) == Reading(inTag, tag, desc, tags, isHidden, false)
    {
      var c := descOrTags[i];
      Extended(Begin(name), descOrTags, i);
      if !inTag {
        if c == '[' {
          inTag := true;
        } else {
          desc := desc + [c];
        }
      } else {
        if c == ']' {
          var prop := ParseSpecialTag(tag);
          if prop == IsHidden {
            isHidden := true;
          } else if prop == Plain && IsReserved(tag) {
            FailureIsFinal(ReadAll(Begin(name), descOrTags[..i + 1]), descOrTags[i + 1..]);
            ReadAllAppend(Begin(name), descOrTags[..i + 1], descOrTags[i + 1..]);
            assert descOrTags[..i + 1] + descOrTags[i + 1..] == descOrTags;
            return Option.None;
          }
          tags := Insert(tags, tag);
          tag := "";
          inTag := false;
        } else {
          tag := tag + [c];
        }
      }
      i := i + 1;
    }
    assert descOrTags[..i] == descOrTags;
    if isHidden {
      tags := Insert(tags, "hide");
      tags := Insert(tags, ".");
    }
    info := Some(WithTags(name, desc, tags));
  }

  lemma Extended(r: Reading, s: string, i: nat)
    requires i < |s|
    ensures ReadAll(r, s[..i + 1]) == ReadChar(ReadAll(r, s[..i]), s[i])
  {
    assert s[..i + 1] == s[..i] + [s[i]];
    ReadAllAppend(r, s[..i], [s[i]]);
    var m := ReadAll(r, s[..i]);
    assert ReadAll(m, [s[i]]) == ReadAll(ReadChar(m, s[i]), [s[i]][1..]);
  }

  lemma {:induction false} FailureIsFinal(r: Reading, s: string)
    requires r.failed
    ensures ReadAll(r, s).failed
    decreases |s|
  {
    if s == "" {
    } else {
      FailureIsFinal(ReadChar(r, s[0]), s[1..]);
    }
  }

  // ----- reading printed tags -----

  lemma {:induction false} ReadingKeepsOrder(r: Reading, s: string)
    requires Ordered(r.tags)
    ensures Ordered(ReadAll(r, s).tags)
    decreases |s|
  {
    if s == "" {
    } else {
      InsertKeepsOrder(r.tags, r.tag);
      ReadingKeepsOrder(ReadChar(r, s[0]), s[1..]);
    }
  }

  lemma MadeIsOrdered(name: string, descOrTags: string)
    requires Made(name, descOrTags).Some?
    ensures Ordered(Made(name, descOrTags).value.tags)
  {
    ReadingKeepsOrder(Begin(name), descOrTags);
    var tags := ReadAll(Begin(name), descOrTags).tags;
    InsertKeepsOrder(tags, "hide");
    InsertKeepsOrder(Insert(tags, "hide"), ".");
  }

  /** What holds of the tags collected so far. */
  ghost predicate Collected(r: Reading) {
    && ']' !in r.tag
    && (forall t <- r.tags :: ']' !in t && (ParseSpecialTag(t).IsHidden? ==> r.hidden) && (IsReserved(t) ==> r.failed))
  }

  lemma {:induction false} CollectedAll(r: Reading, s: string)
    requires Collected(r)
    ensures Collected(ReadAll(r, s))
    decreases |s|
  {
    if s == "" {
    } else {
      CollectedAll(ReadChar(r, s[0]), s[1..]);
    }
  }

  /** Tags a test case can have: free of closing brackets, none reserved, and with both markers
      of a hidden test case if there is any. */
  predicate Settled(tags: seq<string>) {
    && (forall t <- tags :: ']' !in t && !IsReserved(t))
    && ((exists t <- tags :: ParseSpecialTag(t).IsHidden?) ==> "hide" in tags && "." in tags)
  }

  lemma MadeIsSettled(name: string, descOrTags: string)
    requires Made(name, descOrTags).Some?
    ensures var info := Made(name, descOrTags).value;
            Settled(info.tags) && info == WithTags(name, info.desc, info.tags)
  {
    CollectedAll(Begin(name), descOrTags);
    var r := ReadAll(Begin(name), descOrTags);
    var tags := Finished(r);
    assert ParseSpecialTag("hide").IsHidden? && ParseSpecialTag(".").IsHidden?;
    forall t | t in tags ensures ']' !in t && !IsReserved(t) {
      assert t in r.tags || t == "hide" || t == ".";
    }
  }

  lemma {:induction false} TagRead(r: Reading, tag: string, rest: string)
    requires r.inTag && ']' !in tag
    ensures ReadAll(r, tag + "]" + rest) == ReadAll(ReadChar(r.(tag := r.tag + tag), ']'), rest)
    decreases |tag|
  {
    var s := tag + "]" + rest;
    if tag == "" {
      assert s[1..] == rest && r.tag + tag == r.tag;
    } else {
      assert s[1..] == tag[1..] + "]" + rest;
      var r1 := r.(tag := r.tag + [tag[0]]);
      TagRead(r1, tag[1..], rest);
      assert r1.tag + tag[1..] == r.tag + tag;
    }
  }

  /** Inserting the tags one by one. */
  function InsertAll(tags: seq<string>, more: seq<string>): (r: seq<string>)
    ensures forall t :: t in r <==> t in tags || t in more
    decreases |more|
  {
    if more == [] then tags
    else
      assert forall t :: t in more <==> t == more[0] || t in more[1..];
      InsertAll(Insert(tags, more[0]), more[1..])
  }

  predicate AnyHidden(tags: seq<string>) { exists t <- tags :: ParseSpecialTag(t).IsHidden? }

  predicate AnyReserved(tags: seq<string>) { exists t <- tags :: IsReserved(t) }

  lemma {:induction false} TagsRead(r: Reading, tags: seq<string>)
    requires !r.inTag && r.tag == "" && forall t <- tags :: ']' !in t
    ensures ReadAll(r, TagText(tags)) ==
              r.(tags := InsertAll(r.tags, tags), hidden := r.hidden || AnyHidden(tags), failed := r.failed || AnyReserved(tags))
    decreases |tags|
  {
    if tags == [] {
    } else {
      var s := TagText(tags);
      var rest := TagText(tags[1..]);
      assert s == "[" + (tags[0] + "]" + rest);
      assert s[1..] == tags[0] + "]" + rest;
      TagRead(r.(inTag := true), tags[0], rest);
      assert "" + tags[0] == tags[0];
      var r1 := ReadChar(r.(inTag := true, tag := tags[0]), ']');
      TagsRead(r1, tags[1..]);
      assert AnyHidden(tags) == (ParseSpecialTag(tags[0]).IsHidden? || AnyHidden(tags[1..]));
      assert AnyReserved(tags) == (IsReserved(tags[0]) || AnyReserved(tags[1..]));
    }
  }

  /** Registering a test case with the printed tags of another gives it the same tags, printed
      the same, exactly unless its name alone hides it and the other is not hidden. */
  lemma TagsRoundTrip(name: string, descOrTags: string, name2: string)
    requires Made(name, descOrTags).Some?
    ensures var info := Made(name, descOrTags).value;
            var again := Made(name2, info.tagsAsString);
            && again.Some? && again.value.desc == ""
            && ((StartsWith(name2, "./") ==> "hide" in info.tags && "." in info.tags) <==>
                again.value.tags == info.tags)
            && (again.value.tags == info.tags ==> again.value.tagsAsString == info.tagsAsString && again.value.lcaseTags == info.lcaseTags)
  {
    MadeIsSettled(name, descOrTags);
    var info := Made(name, descOrTags).value;
    TagsRead(Begin(name2), info.tags);
    var again := Made(name2, info.tagsAsString).value;
    assert forall t :: t in InsertAll([], info.tags) <==> t in info.tags;
    if StartsWith(name2, "./") {
      assert "hide" in again.tags && "." in again.tags;
    }
    if StartsWith(name2, "./") ==> "hide" in info.tags && "." in info.tags {
      MadeIsOrdered(name, descOrTags);
      MadeIsOrdered(name2, info.tagsAsString);
      OrderedIsUnique(again.tags, info.tags);
    }
  }

  // ----- registering, in the words of a user -----

  /** Tags a test case must not be given. */
  predicate NotAllowed(tag: string) {
    && tag != "" && tag[0] != '.'
    && !('0' <= tag[0] <= '9') && !('A' <= tag[0] <= 'Z') && !('a' <= tag[0] <= 'z')
    && tag != "!hide" && tag != "!throws" && tag != "!shouldfail" && tag != "!mayfail"
  }

  /** Tags that hide a test case. */
  predicate Hides(tag: string) {
    (tag != "" && tag[0] == '.') || tag == "hide" || tag == "!hide"
  }

  lemma SpecialTags(tag: string)
    ensures IsReserved(tag) <==> NotAllowed(tag)
    ensures ParseSpecialTag(tag).IsHidden? <==> Hides(tag)
  {
    if tag != "" {
      assert tag[..1] == [tag[0]];
    }
  }

  lemma {:induction false} TextRead(r: Reading, text: string)
    requires !r.inTag && '[' !in text
    ensures ReadAll(r, text) == r.(desc := r.desc + text)
    decreases |text|
  {
    if text == "" {
      assert r.desc + text == r.desc;
    } else {
      TextRead(r.(desc := r.desc + [text[0]]), text[1..]);
      assert r.desc + [text[0]] + text[1..] == r.desc + text;
    }
  }

  /** A test case described by a text and tags is refused exactly if one of the tags is not
      allowed. Otherwise it has that description and those tags, and, if its name begins with "./"
      or one of the tags hides it, "hide" and "." as well. */
  lemma RegisteredWith(name: string, text: string, tags: seq<string>)
    requires '[' !in text && forall t <- tags :: ']' !in t
    ensures var made := Made(name, text + TagText(tags));
            && (made.None? <==> exists t <- tags :: NotAllowed(t))
            && (made.Some? ==>
                  && made.value.name == name && made.value.desc == text
                  && forall u :: u in made.value.tags <==>
                       u in tags || ((u == "hide" || u == ".") && (StartsWith(name, "./") || exists t <- tags :: Hides(t))))
  {
    ReadAllAppend(Begin(name), text, TagText(tags));
    TextRead(Begin(name), text);
    assert "" + text == text;
    TagsRead(Begin(name).(desc := text), tags);
    forall t | t in tags ensures (IsReserved(t) <==> NotAllowed(t)) && (ParseSpecialTag(t).IsHidden? <==> Hides(t)) {
      SpecialTags(t);
    }
    assert AnyReserved(tags) <==> exists t <- tags :: NotAllowed(t);
    assert AnyHidden(tags) <==> exists t <- tags :: Hides(t);
  }

  /** The special properties of a registered test case, by its tags. They are read in lower case,
      so that "HIDE" sets the property although it does not add the tags of a hidden test case. */
  lemma PropertiesByTag(name: string, descOrTags: string)
    requires Made(name, descOrTags).Some?
    ensures var info := Made(name, descOrTags).value;
            && (IsHidden in info.properties <==> exists t <- info.tags :: Hides(ToLower(t)))
            && (Throws in info.properties <==> exists t <- info.tags :: ToLower(t) == "!throws")
            && (ShouldFail in info.properties <==> exists t <- info.tags :: ToLower(t) == "!shouldfail")
            && (MayFail in info.properties <==> exists t <- info.tags :: ToLower(t) == "!mayfail")
            && Plain !in info.properties
  {
    MadeIsSettled(name, descOrTags);
    var info := Made(name, descOrTags).value;
    hide Made;
    forall t | t in info.tags
      ensures ParseSpecialTag(ToLower(t)).IsHidden? <==> Hides(ToLower(t))
      ensures ParseSpecialTag(ToLower(t)).Throws? <==> ToLower(t) == "!throws"
      ensures ParseSpecialTag(ToLower(t)).ShouldFail? <==> ToLower(t) == "!shouldfail"
      ensures ParseSpecialTag(ToLower(t)).MayFail? <==> ToLower(t) == "!mayfail"
    {
      OneProperty(ToLower(t));
    }
  }

  lemma OneProperty(tag: string)
    ensures ParseSpecialTag(tag).IsHidden? <==> Hides(tag)
    ensures ParseSpecialTag(tag).Throws? <==> tag == "!throws"
    ensures ParseSpecialTag(tag).ShouldFail? <==> tag == "!shouldfail"
    ensures ParseSpecialTag(tag).MayFail? <==> tag == "!mayfail"
  {
    SpecialTags(tag);
  }

  // ----- selecting test cases -----

  function Behind(pattern: string): string {
    if StartsWith(pattern, "*") then pattern[1..] else pattern
  }

  /** A pattern without the star at either end. */
  function Core(pattern: string): string {
    var p := Behind(pattern);
    if EndsWith(p, "*") then p[..|p| - 1] else p
  }

  /** Patterns with a star at either end; a star elsewhere is an ordinary character. */
  predicate WildcardMatches(pattern: string, s: string) {
    var atStart, atEnd := StartsWith(pattern, "*"), EndsWith(Behind(pattern), "*");
    if atStart && atEnd then Find(s, Core(pattern), 0) != -1
    else if atStart then EndsWith(s, Core(pattern))
    else if atEnd then StartsWith(s, Core(pattern))
    else Core(pattern) == s
  }

  predicate PatternMatches(p: Pattern, info: Info) {
    var plain :=
      if p.kind.NameToken? then WildcardMatches(ToLower(p.token), ToLower(info.name))
      else ToLower(p.token) in info.lcaseTags;
    plain != p.excluded
  }

  predicate FilterMatches(f: Filter, info: Info) { forall p <- f :: PatternMatches(p, info) }

  predicate SpecMatches(spec: seq<Filter>, info: Info) { exists f <- spec :: FilterMatches(f, info) }

  /** Whether a string matches a pattern in which every star stands for any text. */
  ghost predicate Glob(pattern: string, s: string)
    decreases |pattern|
  {
    if pattern == "" then s == ""
    else if pattern[0] == '*' then exists k: nat :: k <= |s| && Glob(pattern[1..], s[k..])
    else s != "" && s[0] == pattern[0] && Glob(pattern[1..], s[1..])
  }

  lemma {:induction false} LiteralGlob(literal: string, s: string)
    requires '*' !in literal
    ensures Glob(literal, s) <==> literal == s
    ensures Glob(literal + "*", s) <==> StartsWith(s, literal)
    decreases |literal|
  {
    if literal == "" {
      assert literal + "*" == "*" && "*"[1..] == "";
      assert Glob("*"[1..], s[|s|..]);
    } else {
      assert (literal + "*")[1..] == literal[1..] + "*";
      if s != "" {
        LiteralGlob(literal[1..], s[1..]);
        assert s == [s[0]] + s[1..] && literal == [literal[0]] + literal[1..];
        if StartsWith(s, literal) {
          assert s[1..][..|literal| - 1] == s[..|literal|][1..];
        }
        if s[0] == literal[0] && StartsWith(s[1..], literal[1..]) {
          assert s[..|literal|] == [s[0]] + s[1..][..|literal| - 1];
        }
      }
    }
  }

  /** With no star inside, the four cases of a name pattern are what the stars suggest. */
  lemma WildcardIsGlob(core: string, s: string)
    requires '*' !in core
    ensures WildcardMatches(core, s) <==> Glob(core, s)
    ensures WildcardMatches(core + "*", s) <==> Glob(core + "*", s)
    ensures WildcardMatches("*" + core, s) <==> Glob("*" + core, s)
    ensures WildcardMatches("*" + core + "*", s) <==> Glob("*" + core + "*", s)
  {
    LiteralGlob(core, s);
    Cores(core);
    assert ("*" + core)[1..] == core && ("*" + core + "*")[1..] == core + "*";
    forall k: nat | k <= |s| ensures Glob(core, s[k..]) <==> s[k..] == core {
      LiteralGlob(core, s[k..]);
    }
    forall k: nat | k <= |s| ensures Glob(core + "*", s[k..]) <==> OccursAt(s, core, k) {
      LiteralGlob(core, s[k..]);
      if k + |core| <= |s| {
        assert s[k..][..|core|] == s[k..k + |core|];
      }
    }
    if EndsWith(s, core) {
      assert Glob(core, s[|s| - |core|..]);
    }
    if Find(s, core, 0) != -1 {
      assert Glob(core + "*", s[Find(s, core, 0)..]);
    }
  }

  function WithoutStars(s: string): string {
    if s == "" then "" else (if s[0] == '*' then "" else [s[0]]) + WithoutStars(s[1..])
  }

  lemma {:induction false} WithoutStarsAppend(s: string, t: string)
    ensures WithoutStars(s + t) == WithoutStars(s) + WithoutStars(t)
    decreases |s|
  {
    if s == "" {
      assert s + t == t;
    } else {
      assert (s + t)[1..] == s[1..] + t;
      WithoutStarsAppend(s[1..], t);
    }
  }

  lemma {:induction false} WithoutStarsIsShorter(s: string)
    ensures |WithoutStars(s)| <= |s| && ('*' in s ==> |WithoutStars(s)| < |s|)
  {
    if s == "" {
    } else {
      WithoutStarsIsShorter(s[1..]);
    }
  }

  /** With every star standing for nothing, a pattern matches its other characters. */
  lemma {:induction false} GlobOfOthers(pattern: string)
    ensures Glob(pattern, WithoutStars(pattern))
  {
    if pattern == "" {
    } else {
      GlobOfOthers(pattern[1..]);
      var s := WithoutStars(pattern);
      if pattern[0] == '*' {
        assert s[0..] == WithoutStars(pattern[1..]);
      } else {
        assert s[1..] == WithoutStars(pattern[1..]);
      }
    }
  }

  /** A pattern is its core with the stars that were taken off. */
  lemma PatternOfCore(pattern: string)
    ensures pattern == (if StartsWith(pattern, "*") then "*" else "") + Core(pattern) + (if EndsWith(Behind(pattern), "*") then "*" else "")
  {
    var p := Behind(pattern);
    assert EndsWith(p, "*") ==> p == p[..|p| - 1] + "*";
    assert StartsWith(pattern, "*") ==> pattern == pattern[..1] + pattern[1..];
  }

  lemma OthersAreInCore(pattern: string)
    ensures WithoutStars(pattern) == WithoutStars(Core(pattern))
  {
    PatternOfCore(pattern);
    var front, back := if StartsWith(pattern, "*") then "*" else "", if EndsWith(Behind(pattern), "*") then "*" else "";
    WithoutStarsAppend(front + Core(pattern), back);
    WithoutStarsAppend(front, Core(pattern));
  }

  /** A pattern with a star inside misses a text that its stars suggest. */
  lemma InnerStarIsMissed(pattern: string)
    requires '*' in Core(pattern)
    ensures Glob(pattern, WithoutStars(pattern)) && !WildcardMatches(pattern, WithoutStars(pattern))
  {
    GlobOfOthers(pattern);
    OthersAreInCore(pattern);
    WithoutStarsIsShorter(Core(pattern));
  }

  /** A pattern selects what its stars suggest, whatever the text, exactly if no star is left
      when one has been taken off either end. */
  lemma PatternIsGlobIffNoStarInside(pattern: string)
    ensures (forall s :: WildcardMatches(pattern, s) <==> Glob(pattern, s)) <==> '*' !in Core(pattern)
  {
    if '*' in Core(pattern) {
      InnerStarIsMissed(pattern);
    } else {
      PatternOfCore(pattern);
      var core := Core(pattern);
      assert "" + core == core && core + "" == core && "*" + core + "" == "*" + core;
      forall s ensures WildcardMatches(pattern, s) <==> Glob(pattern, s) {
        WildcardIsGlob(core, s);
      }
    }
  }

  lemma Cores(core: string)
    requires '*' !in core
    ensures !StartsWith(core, "*") && !EndsWith(core, "*")
    ensures EndsWith(core + "*", "*") && (core + "*")[..|core|] == core
    ensures core != "" ==> !StartsWith(core + "*", "*")
    ensures StartsWith("*" + core, "*") && StartsWith("*" + core + "*", "*")
  {
    if core != "" {
      assert core[0] in core && core[|core| - 1] in core;
      assert core[..1][0] == core[0] && core[|core| - 1..][0] == core[|core| - 1];
      assert (core + "*")[..1][0] == core[0];
    }
    assert (core + "*")[|core|..] == "*";
    assert ("*" + core)[..1] == "*" && ("*" + core + "*")[..1] == "*";
  }

  // ----- printed tags as a specification -----

  function TagFilter(tags: seq<string>): Filter {
    seq(|tags|, i requires 0 <= i < |tags| => Pattern(TagToken, tags[i], false))
  }

  lemma {:induction false} TagTextIsFilterText(tags: seq<string>)
    ensures TagText(tags) == FilterText(TagFilter(tags))
  {
    if tags == [] {
    } else {
      TagTextIsFilterText(tags[1..]);
      assert TagFilter(tags)[1..] == TagFilter(tags[1..]);
      assert PatternText(TagFilter(tags)[0]) == "[" + tags[0] + "]";
    }
  }

  /** Used as a test specification without aliases, the printed tags of a test case select
      exactly the test cases carrying all of them, in whatever case; itself among them. */
  lemma PrintedTagsSelect(name: string, descOrTags: string, other: Info)
    requires Made(name, descOrTags).Some?
    requires var tags := Made(name, descOrTags).value.tags;
             tags != [] && forall t <- tags :: t != "" && !StartsWith(t, "exclude:")
    ensures var info := Made(name, descOrTags).value;
            && (SpecMatches(Filters(info.tagsAsString), other) <==> info.lcaseTags <= other.lcaseTags)
            && SpecMatches(Filters(info.tagsAsString), info)
  {
    MadeIsSettled(name, descOrTags);
    var info := Made(name, descOrTags).value;
    var f := TagFilter(info.tags);
    TagTextIsFilterText(info.tags);
    assert SpecText([f]) == FilterText(f);
    TagFilterIsPrintable(info.tags);
    SpecRoundTrip([f]);
    TagFilterMatches(info.tags, other);
    TagFilterMatches(info.tags, info);
    assert f in [f];
  }

  lemma TagFilterIsPrintable(tags: seq<string>)
    requires tags != [] && forall t <- tags :: t != "" && ']' !in t && !StartsWith(t, "exclude:")
    ensures PrintableSpec([TagFilter(tags)])
  {
    var f := TagFilter(tags);
    forall p | p in f ensures Printable(p) {
      var i :| 0 <= i < |f| && f[i] == p;
      assert tags[i] in tags;
    }
  }

  lemma TagFilterMatches(tags: seq<string>, other: Info)
    ensures FilterMatches(TagFilter(tags), other) <==> forall t <- tags :: ToLower(t) in other.lcaseTags
  {
    var f := TagFilter(tags);
    if FilterMatches(f, other) {
      forall t | t in tags ensures ToLower(t) in other.lcaseTags {
        var i :| 0 <= i < |tags| && tags[i] == t;
        assert f[i] in f;
      }
    }
  }
}
