/** Unquoted names in specifications, and the other ways to write an exclusion. */
module TestSpecNames {
  import Options
  import opened Strings
  import opened TestSpec
  import opened TestSpecTheorems

  /** Names that need no quotes. */
  predicate PlainName(name: string) {
    && name != "" && name[0] != ' ' && name[0] != '~' && name[0] != '[' && name[0] != '"'
    && ',' !in name && '[' !in name
  }

  /** Inside an unquoted name nothing happens up to a comma, a bracket or the end. */
  lemma {:induction false} NameScanned(arg: string, s: State, e: nat)
    requires s.mode == Name && s.pos <= e <= |arg|
    requires forall i :: s.pos <= i < e ==> arg[i] != ',' && arg[i] != '['
    ensures ParseFrom(arg, s) == ParseFrom(arg, s.(pos := e))
    decreases e - s.pos
  {
    if s.pos == e {
    } else {
      Parsed(arg, s);
      hide ParseFrom;
      NameScanned(arg, s.(pos := s.pos + 1), e);
    }
  }

  lemma NameStarts(arg: string, s: State)
    requires s.mode == None && s.pos < |arg|
    requires arg[s.pos] != ' ' && arg[s.pos] != '~' && arg[s.pos] != '[' && arg[s.pos] != '"' && arg[s.pos] != ','
    ensures ParseFrom(arg, s) == ParseFrom(arg, s.(mode := Name, start := s.pos, pos := s.pos + 1))
  {
    Parsed(arg, s);
    hide ParseFrom;
  }

  /** The parser in the middle of a specification, behind an unquoted name that is still open. */
  function Open(s: State, name: string): State { s.(mode := Name, start := s.pos, pos := s.pos + |name|) }

  /** A name is open from its first character to the one behind it. */
  lemma NameOpened(arg: string, s: State, name: string)
    requires s.mode == None && PlainName(name) && OccursAt(arg, name, s.pos)
    ensures ParseFrom(arg, s) == ParseFrom(arg, Open(s, name))
    ensures Token(arg, Open(s, name)) == name && s.pos + |name| <= |arg|
  {
    hide *;
    NameChars(arg, name, s.pos);
    TokenOfOpen(arg, s, name);
    NameStarts(arg, s);
    NameScanned(arg, s.(mode := Name, start := s.pos, pos := s.pos + 1), s.pos + |name|);
    assert s.(mode := Name, start := s.pos, pos := s.pos + 1).(pos := s.pos + |name|) == Open(s, name) by {
      OpenIs(s, name);
    }
  }

  lemma OpenIs(s: State, name: string)
    ensures Open(s, name) == s.(mode := Name, start := s.pos, pos := s.pos + |name|)
  {
  }

  lemma TokenOfOpen(arg: string, s: State, name: string)
    requires OccursAt(arg, name, s.pos)
    ensures Token(arg, Open(s, name)) == name
  {
  }

  lemma NameChars(arg: string, name: string, p: nat)
    requires PlainName(name) && OccursAt(arg, name, p)
    ensures |name| > 0 && p + |name| <= |arg| && arg[p..p + |name|] == name
    ensures arg[p] != ' ' && arg[p] != '~' && arg[p] != '[' && arg[p] != '"' && arg[p] != ','
    ensures forall i :: p <= i < p + |name| ==> arg[i] != ',' && arg[i] != '['
  {
    forall i | p <= i < p + |name| ensures arg[i] == name[i - p] && arg[i] in name {
      OccursHere(arg, name, p, i - p);
    }
  }

  /** The pattern an unquoted name makes: "exclude:" in front of it excludes. */
  function NamePattern(name: string, excluded: bool): Filter {
    if name == "exclude:" then []
    else if StartsWith(name, "exclude:") then [Pattern(NameToken, name[8..], true)]
    else [Pattern(NameToken, name, excluded)]
  }

  /** Behind the name, with its pattern added. */
  function Named(s: State, name: string): State {
    s.(current := s.current + NamePattern(name, s.exclusion), exclusion := false, start := s.pos, pos := s.pos + |name|)
  }

  /** Behind a bracket at the present position, and the character that it skips. */
  function TagOpened(s: State): State { s.(mode := Tag, start := s.pos + 1, pos := s.pos + 2) }

  lemma PatternOfName(arg: string, s: State, name: string)
    requires s.mode == None && Token(arg, Open(s, name)) == name && name != ""
    ensures WithPattern(arg, Open(s, name), NameToken) == Named(s, name)
  {
    if StartsWith(name, "exclude:") {
      assert name[8..] == "" <==> name == "exclude:";
    }
  }

  /** The last name of a specification. */
  lemma NameAtEnd(arg: string, s: State, name: string)
    requires s.mode == None && PlainName(name) && OccursAt(arg, name, s.pos) && s.pos + |name| == |arg|
    ensures ParseFrom(arg, s) == Named(s, name)
  {
    NameOpened(arg, s, name);
    assert ParseFrom(arg, Open(s, name)) == WithPattern(arg, Open(s, name), NameToken);
    hide ParseFrom, WithPattern, Named, NamePattern, Token;
    PatternOfName(arg, s, name);
  }

  /** A name in front of a comma. */
  lemma NameAtComma(arg: string, s: State, name: string)
    requires s.mode == None && PlainName(name) && OccursAt(arg, name, s.pos)
    requires s.pos + |name| < |arg| && arg[s.pos + |name|] == ','
    ensures ParseFrom(arg, s) == ParseFrom(arg, WithFilter(Named(s, name)).(pos := s.pos + |name| + 1))
  {
    hide ParseFrom, WithPattern, NamePattern, OccursAt, PlainName, Token;
    NotEmpty(name);
    NameOpened(arg, s, name);
    Parsed(arg, Open(s, name));
    PatternOfName(arg, s, name);
  }

  lemma NotEmpty(name: string)
    requires PlainName(name)
    ensures name != ""
  {
  }

  /** A name in front of a tag. */
  lemma NameAtBracket(arg: string, s: State, name: string)
    requires s.mode == None && PlainName(name) && OccursAt(arg, name, s.pos)
    requires s.pos + |name| < |arg| && arg[s.pos + |name|] == '['
    ensures ParseFrom(arg, s) ==
              ParseFrom(arg, TagOpened(if name == "exclude:" then s.(exclusion := true, pos := s.pos + |name|) else Named(s, name)))
  {
    hide ParseFrom, WithPattern, NamePattern, OccursAt, PlainName, Token;
    NotEmpty(name);
    NameOpened(arg, s, name);
    Parsed(arg, Open(s, name));
    PatternOfName(arg, s, name);
  }

  // ----- specifications with unquoted names -----

  /** A filter as it can be written: perhaps an unquoted name, then delimited patterns. */
  datatype Written = Written(name: Options.Option<Pattern>, rest: Filter)

  function Patterns(w: Written): Filter {
    (if w.name.Some? then [w.name.value] else []) + w.rest
  }

  function WrittenText(w: Written): string {
    if w.name.None? then FilterText(w.rest)
    else (if w.name.value.excluded then "~" else "") + (w.name.value.token + FilterText(w.rest))
  }

  function WrittenSpec(ws: seq<Written>): string {
    if ws == [] then ""
    else if |ws| == 1 then WrittenText(ws[0])
    else WrittenText(ws[0]) + ("," + WrittenSpec(ws[1..]))
  }

  function AllPatterns(ws: seq<Written>): seq<Filter> {
    if ws == [] then [] else [Patterns(ws[0])] + AllPatterns(ws[1..])
  }

  /** A name must be one that needs no quotes, and only a plain tag can stand directly behind it. */
  predicate Writable(w: Written) {
    && PrintableFilter(w.rest) && Patterns(w) != []
    && (w.name.Some? ==>
          && w.name.value.kind == NameToken && PlainName(w.name.value.token) && !StartsWith(w.name.value.token, "exclude:")
          && (w.rest != [] ==> w.rest[0].kind == TagToken && !w.rest[0].excluded))
  }

  /** What is left to read: nothing, or a comma and the filters behind it. */
  predicate Ends(rest: string) { rest == "" || rest[0] == ',' }

  /** State t of the parser is the one behind a filter with these patterns. */
  ghost predicate Behind(arg: string, s: State, t: State, f: Filter, rest: string) {
    && t.mode == None && !t.exclusion
    && if rest == "" then WithFilter(ParseFrom(arg, s)).filters == s.filters + [f]
       else
         && ParseFrom(arg, s) == ParseFrom(arg, t)
         && t.current == [] && t.filters == s.filters + [f] && t.pos <= |arg| && arg[t.pos..] == rest[1..]
  }

  /** After delimited patterns. */
  lemma FilterEnds(arg: string, s: State, m: State, f: Filter, rest: string) returns (t: State)
    requires ParseFrom(arg, s) == ParseFrom(arg, m) && m.filters == s.filters
    requires m.mode == None && !m.exclusion && m.current == f && f != [] && m.pos <= |arg| && arg[m.pos..] == rest && Ends(rest)
    ensures Behind(arg, s, t, f, rest)
  {
    hide ParseFrom, WithFilter;
    if rest == "" {
      t := m;
      LastFilter(arg, m);
    } else {
      assert rest == "," + rest[1..];
      t := NextFilter(arg, m, rest[1..]);
    }
  }

  lemma RestOccurs(arg: string, p: nat, a: string, b: string)
    requires p <= |arg| && arg[p..] == a + b
    ensures OccursAt(arg, a, p) && p + |a| <= |arg| && arg[p + |a|..] == b
    ensures p + |a| < |arg| <==> b != ""
    ensures b != "" ==> arg[p + |a|] == b[0]
  {
    assert arg[p..][..|a|] == a && arg[p..][|a|..] == b;
    assert arg[p..p + |a|] == arg[p..][..|a|];
  }

  /** The mark of an exclusion, if there is one. */
  lemma MarkRead(arg: string, s: State, excluded: bool, rest: string) returns (m: State)
    requires s.mode == None && !s.exclusion && s.pos <= |arg| && arg[s.pos..] == (if excluded then "~" else "") + rest
    ensures ParseFrom(arg, s) == ParseFrom(arg, m)
    ensures m == s.(exclusion := excluded, pos := s.pos + (if excluded then 1 else 0)) && m.pos <= |arg| && arg[m.pos..] == rest
  {
    RestOccurs(arg, s.pos, if excluded then "~" else "", rest);
    Parsed(arg, s);
    hide ParseFrom;
    m := s.(exclusion := excluded, pos := s.pos + (if excluded then 1 else 0));
    if excluded {
      OccursHere(arg, "~", s.pos, 0);
    } else {
      assert "" + rest == rest;
    }
  }

  lemma NamedFilterParsed(arg: string, s: State, w: Written, rest: string) returns (t: State)
    requires s.mode == None && !s.exclusion && s.current == [] && s.pos <= |arg|
    requires Writable(w) && w.name.Some? && Ends(rest) && arg[s.pos..] == WrittenText(w) + rest
    ensures Behind(arg, s, t, Patterns(w), rest)
  {
    hide *;
    NamedParts(w, rest);
    var m := MarkRead(arg, s, w.name.value.excluded, w.name.value.token + (FilterText(w.rest) + rest));
    t := NameBehindMark(arg, s, m, w, rest);
  }

  lemma NameBehindMark(arg: string, s: State, m: State, w: Written, rest: string) returns (t: State)
    requires Writable(w) && w.name.Some? && Ends(rest) && s.current == []
    requires m == s.(exclusion := w.name.value.excluded, pos := m.pos) && m.mode == None && m.pos <= |arg|
    requires ParseFrom(arg, s) == ParseFrom(arg, m) && arg[m.pos..] == w.name.value.token + (FilterText(w.rest) + rest)
    ensures Behind(arg, s, t, Patterns(w), rest)
  {
    hide *;
    NamedParts(w, rest);
    RestOccurs(arg, m.pos, w.name.value.token, FilterText(w.rest) + rest);
    if w.rest == [] {
      t := NameEnds(arg, s, m, w.name.value, rest);
    } else {
      t := TagsBehindName(arg, s, m, w, rest);
    }
  }

  lemma NamedParts(w: Written, rest: string)
    requires Writable(w) && w.name.Some?
    ensures var p := w.name.value;
            && WrittenText(w) + rest == (if p.excluded then "~" else "") + (p.token + (FilterText(w.rest) + rest))
            && PlainName(p.token) && NamePattern(p.token, p.excluded) == [p] && [] + [p] == [p] && p.token != "exclude:"
            && (w.rest == [] ==> FilterText(w.rest) + rest == rest && Patterns(w) == [p])
  {
    var p := w.name.value;
    AppendIsAssociative(if p.excluded then "~" else "", p.token + FilterText(w.rest), rest);
    AppendIsAssociative(p.token, FilterText(w.rest), rest);
    assert StartsWith("exclude:", "exclude:");
  }

  lemma CommaAhead(arg: string, e: nat, rest: string)
    requires e <= |arg| && arg[e..] == rest && Ends(rest)
    ensures if rest == "" then e == |arg| else e < |arg| && arg[e] == ',' && arg[e + 1..] == rest[1..]
  {
    if rest != "" {
      assert arg[e..][0] == arg[e] && arg[e..][1..] == arg[e + 1..];
    }
  }

  lemma BracketAhead(arg: string, e: nat, text: string, tail: string)
    requires e <= |arg| && arg[e..] == "[" + (text + tail)
    ensures e < |arg| && arg[e] == '[' && OccursAt(arg, text, e + 1)
    ensures e + 1 + |text| <= |arg| && arg[e + 1 + |text|..] == tail
  {
    RestOccurs(arg, e, "[", text + tail);
    RestOccurs(arg, e + 1, text, tail);
  }

  lemma NameEnds(arg: string, s: State, m: State, p: Pattern, rest: string) returns (t: State)
    requires ParseFrom(arg, s) == ParseFrom(arg, m) && m == s.(exclusion := p.excluded, pos := m.pos) && s.current == []
    requires m.mode == None && PlainName(p.token) && NamePattern(p.token, p.excluded) == [p] && OccursAt(arg, p.token, m.pos)
    requires arg[m.pos + |p.token|..] == rest && Ends(rest)
    ensures Behind(arg, s, t, [p], rest)
  {
    hide *;
    NameChars(arg, p.token, m.pos);
    CommaAhead(arg, m.pos + |p.token|, rest);
    NamedIs(m, p);
    if rest == "" {
      NameAtEnd(arg, m, p.token);
      t := m.(exclusion := false);
      EndsHere(arg, s, t, p);
    } else {
      NameAtComma(arg, m, p.token);
      t := m.(exclusion := false, start := m.pos, current := [], filters := m.filters + [[p]], pos := m.pos + |p.token| + 1);
      FilterClosed(m, p);
      NextBegins(arg, s, t, [p], rest);
    }
  }

  lemma NamedIs(m: State, p: Pattern)
    requires NamePattern(p.token, p.excluded) == [p] && m.exclusion == p.excluded && m.current == []
    ensures Named(m, p.token) == m.(current := [p], exclusion := false, start := m.pos, pos := m.pos + |p.token|)
  {
    hide NamePattern;
    assert [] + [p] == [p];
  }

  lemma FilterClosed(m: State, p: Pattern)
    ensures WithFilter(m.(current := [p], exclusion := false, start := m.pos, pos := m.pos + |p.token|)) ==
              m.(current := [], exclusion := false, start := m.pos, pos := m.pos + |p.token|, filters := m.filters + [[p]])
  {
  }

  lemma EndsHere(arg: string, s: State, t: State, p: Pattern)
    requires t.mode == None && !t.exclusion
    requires ParseFrom(arg, s).current == [p] && ParseFrom(arg, s).filters == s.filters
    ensures Behind(arg, s, t, [p], "")
  {
    hide ParseFrom;
  }

  lemma NextBegins(arg: string, s: State, t: State, f: Filter, rest: string)
    requires rest != "" && t.mode == None && !t.exclusion && ParseFrom(arg, s) == ParseFrom(arg, t)
    requires t.current == [] && t.filters == s.filters + [f] && t.pos <= |arg| && arg[t.pos..] == rest[1..]
    ensures Behind(arg, s, t, f, rest)
  {
    hide ParseFrom;
  }

  lemma TagsBehindName(arg: string, s: State, m: State, w: Written, rest: string) returns (t: State)
    requires Writable(w) && w.name.Some? && w.rest != [] && Ends(rest) && s.current == []
    requires var p := w.name.value;
             && ParseFrom(arg, s) == ParseFrom(arg, m) && m == s.(exclusion := p.excluded, pos := m.pos) && m.mode == None
             && PlainName(p.token) && NamePattern(p.token, p.excluded) == [p] && p.token != "exclude:"
             && OccursAt(arg, p.token, m.pos) && m.pos + |p.token| <= |arg|
             && arg[m.pos + |p.token|..] == FilterText(w.rest) + rest
    ensures Behind(arg, s, t, Patterns(w), rest)
  {
    var p, tag, others := w.name.value, w.rest[0], w.rest[1..];
    TagParts(w, rest);
    hide ParseFrom, FilterText, Patterns, Writable, Behind, PlainName, NamePattern, OccursAt, Ends, PrintableFilter;
    var e, tail := m.pos + |p.token|, FilterText(others) + rest;
    BracketAhead(arg, e, tag.token + "]", tail);
    NameAtBracket(arg, m, p.token);
    var open := TagOpened(Named(m, p.token));
    assert open.current == [p] && open.pos == e + 2 && open.start == e + 1 && open.filters == s.filters;
    assert open.mode == Tag && !open.exclusion;
    hide Named, TagOpened;
    var closed := TagRead(arg, open, tag);
    t := OthersRead(arg, s, closed, p, tag, others, rest);
  }

  lemma TagRead(arg: string, s: State, tag: Pattern) returns (t: State)
    requires s.mode == Tag && s.start == s.pos - 1 && !s.exclusion && Printable(tag) && tag.kind == TagToken && !tag.excluded
    requires 0 < s.pos && OccursAt(arg, tag.token + "]", s.pos - 1)
    ensures ParseFrom(arg, s) == ParseFrom(arg, t)
    ensures t == s.(mode := None, current := s.current + [tag], pos := s.pos + |tag.token|)
  {
    hide ParseFrom, OccursAt, Printable;
    TokenParsed(arg, s, tag);
    t := s.(mode := None, current := s.current + [tag], pos := s.pos + |tag.token|);
  }

  lemma OthersRead(arg: string, s: State, c: State, p: Pattern, tag: Pattern, others: Filter, rest: string) returns (t: State)
    requires ParseFrom(arg, s) == ParseFrom(arg, c) && c.filters == s.filters && c.mode == None && !c.exclusion
    requires c.current == [p] + [tag] && PrintableFilter(others) && Ends(rest)
    requires c.pos <= |arg| && arg[c.pos..] == FilterText(others) + rest
    ensures Behind(arg, s, t, [p] + [tag] + others, rest)
  {
    hide ParseFrom, FilterText, PrintableFilter, Behind, OccursAt, Ends;
    RestOccurs(arg, c.pos, FilterText(others), rest);
    var start := FilterParsed(arg, c, others);
    var f := [p] + [tag] + others;
    t := FilterEnds(arg, s, c.(current := f, pos := c.pos + |FilterText(others)|, start := start), f, rest);
  }

  lemma TagParts(w: Written, rest: string)
    requires Writable(w) && w.name.Some? && w.rest != []
    ensures var p, tag, others := w.name.value, w.rest[0], w.rest[1..];
            && FilterText(w.rest) + rest == "[" + (tag.token + "]" + (FilterText(others) + rest))
            && Printable(tag) && tag.kind == TagToken && !tag.excluded && PrintableFilter(others)
            && [p] + [tag] + others == Patterns(w) && Patterns(w) != []
  {
    var tag, others := w.rest[0], w.rest[1..];
    assert tag in w.rest && forall q <- others :: q in w.rest;
    assert PatternText(tag) == "[" + (tag.token + "]");
    AppendIsAssociative(PatternText(tag), FilterText(others), rest);
    AppendIsAssociative("[", tag.token + "]", FilterText(others) + rest);
  }

  lemma WrittenParsed(arg: string, s: State, w: Written, rest: string) returns (t: State)
    requires s.mode == None && !s.exclusion && s.current == [] && s.pos <= |arg|
    requires Writable(w) && Ends(rest) && arg[s.pos..] == WrittenText(w) + rest
    ensures Behind(arg, s, t, Patterns(w), rest)
  {
    hide ParseFrom, FilterText, Behind, PrintableFilter;
    if w.name.Some? {
      t := NamedFilterParsed(arg, s, w, rest);
    } else {
      assert [] + w.rest == w.rest;
      var m := FirstFilterParsed(arg, s, w.rest, rest);
      t := FilterEnds(arg, s, m, w.rest, rest);
    }
  }

  lemma {:induction false} WrittenSpecParsed(arg: string, s: State, ws: seq<Written>)
    requires s.mode == None && !s.exclusion && s.current == [] && s.pos <= |arg|
    requires arg[s.pos..] == WrittenSpec(ws) && forall w <- ws :: Writable(w)
    ensures WithFilter(ParseFrom(arg, s)).filters == s.filters + AllPatterns(ws)
    decreases |ws|
  {
    if ws == [] {
      LastFilter(arg, s);
    } else {
      hide ParseFrom, WrittenText, Patterns, Writable, WithFilter;
      var rest := if |ws| == 1 then "" else "," + WrittenSpec(ws[1..]);
      assert WrittenText(ws[0]) + rest == WrittenSpec(ws);
      assert ws[0] in ws && forall w <- ws[1..] :: w in ws;
      var t := WrittenParsed(arg, s, ws[0], rest);
      if |ws| == 1 {
        assert AllPatterns(ws[1..]) == [];
      } else {
        assert rest[1..] == WrittenSpec(ws[1..]);
        WrittenSpecParsed(arg, t, ws[1..]);
        AppendIsAssociative(s.filters, [Patterns(ws[0])], AllPatterns(ws[1..]));
      }
    }
  }

  /** Filters may begin with an unquoted name, excluded or not, with tags directly behind it;
      parsing what is written gives exactly their patterns, one filter between commas. */
  lemma WrittenRoundTrip(ws: seq<Written>)
    requires forall w <- ws :: Writable(w)
    ensures Filters(WrittenSpec(ws)) == AllPatterns(ws)
  {
    var arg := WrittenSpec(ws);
    assert arg[0..] == arg;
    WrittenSpecParsed(arg, Fresh([], []), ws);
    assert [] + AllPatterns(ws) == AllPatterns(ws);
  }

  /** In particular a name on its own. */
  lemma NameAlone(name: string)
    requires PlainName(name) && !StartsWith(name, "exclude:")
    ensures Filters(name) == [[Pattern(NameToken, name, false)]]
    ensures Filters("~" + name) == [[Pattern(NameToken, name, true)]]
  {
    var plain, excluded := Pattern(NameToken, name, false), Pattern(NameToken, name, true);
    OneName(plain);
    OneName(excluded);
    assert "" + (name + "") == name && "~" + (name + "") == "~" + name;
  }

  lemma OneName(p: Pattern)
    requires p.kind == NameToken && PlainName(p.token) && !StartsWith(p.token, "exclude:")
    ensures Filters((if p.excluded then "~" else "") + (p.token + "")) == [[p]]
  {
    var w := Written(Options.Some(p), []);
    hide Filters;
    WrittenRoundTrip([w]);
    assert Patterns(w) == [p] && AllPatterns([w]) == [Patterns(w)] + [];
  }

  // ----- other ways to exclude -----

  /** "exclude:" excludes the name behind it, the tag it stands in, and the tag behind it. */
  lemma ExcludePrefix(name: string, tag: string)
    requires PlainName("exclude:" + name) && name != ""
    requires tag != "" && ']' !in tag
    ensures Filters("exclude:" + name) == [[Pattern(NameToken, name, true)]]
    ensures Filters("[exclude:" + tag + "]") == [[Pattern(TagToken, tag, true)]]
    ensures !StartsWith(tag, "exclude:") ==> Filters("exclude:[" + tag + "]") == [[Pattern(TagToken, tag, true)]]
  {
    PrefixedName(name);
    PrefixInTag(tag);
    if !StartsWith(tag, "exclude:") {
      PrefixBeforeTag(tag);
    }
  }

  lemma Whole(arg: string)
    ensures OccursAt(arg, arg, 0)
  {
    assert arg[0..|arg|] == arg;
  }

  lemma PrefixedName(name: string)
    requires PlainName("exclude:" + name) && name != ""
    ensures Filters("exclude:" + name) == [[Pattern(NameToken, name, true)]]
  {
    var arg := "exclude:" + name;
    Whole(arg);
    NameAtEnd(arg, Fresh([], []), arg);
    assert arg[..8] == "exclude:" && arg[8..] == name && |arg| > 8;
    hide ParseFrom;
    assert [] + [Pattern(NameToken, name, true)] == [Pattern(NameToken, name, true)];
  }

  lemma PrefixInTag(tag: string)
    requires tag != "" && ']' !in tag
    ensures Filters("[exclude:" + tag + "]") == [[Pattern(TagToken, tag, true)]]
  {
    var token := "exclude:" + tag;
    var arg := "[exclude:" + tag + "]";
    assert arg == "[" + token + "]" && arg[0] == '[';
    var s := Fresh([], []);
    Parsed(arg, s);
    var open := s.(mode := Tag, start := 1, pos := 2);
    var e := |arg| - 1;
    assert forall i :: 1 <= i < e ==> arg[i] == token[i - 1];
    assert ']' !in token;
    TokenScanned(arg, open, TagToken, e);
    assert arg[1..e] == token && token[..8] == "exclude:" && token[8..] == tag;
    Parsed(arg, WithPattern(arg, open.(pos := e), TagToken).(pos := e + 1));
    hide ParseFrom;
    assert [] + [Pattern(TagToken, tag, true)] == [Pattern(TagToken, tag, true)];
  }

  lemma PrefixBeforeTag(tag: string)
    requires tag != "" && ']' !in tag && !StartsWith(tag, "exclude:")
    ensures Filters("exclude:[" + tag + "]") == [[Pattern(TagToken, tag, true)]]
  {
    var arg := "exclude:[" + tag + "]";
    var p := Pattern(TagToken, tag, true);
    hide ParseFrom, OccursAt;
    assert arg == "exclude:" + ("[" + (tag + "]"));
    Whole(arg);
    OccursInside(arg, "exclude:", "[" + (tag + "]"), 0);
    OccursInside(arg, "[", tag + "]", 8);
    OccursHere(arg, "[", 8, 0);
    NameAtBracket(arg, Fresh([], []), "exclude:");
    var open := TagOpened(Fresh([], []).(exclusion := true, pos := 8));
    hide Filters, StartsWith;
    LastTag(arg, open, p);
    assert Filters(arg) == WithFilter(ParseFrom(arg, open)).filters by {
      FiltersFrom(arg, open);
    }
  }

  lemma FiltersFrom(arg: string, s: State)
    requires ParseFrom(arg, Fresh([], [])) == ParseFrom(arg, s)
    ensures Filters(arg) == WithFilter(ParseFrom(arg, s)).filters
  {
    hide ParseFrom;
  }

  lemma LastTag(arg: string, s: State, p: Pattern)
    requires s.mode == Tag && s.start == s.pos - 1 && s.exclusion == p.excluded && Printable(p) && p.kind == TagToken
    requires 0 < s.pos && OccursAt(arg, p.token + "]", s.pos - 1) && s.pos + |p.token| == |arg|
    requires s.current == [] && s.filters == []
    ensures WithFilter(ParseFrom(arg, s)).filters == [[p]]
  {
    hide ParseFrom, OccursAt, Printable;
    TokenParsed(arg, s, p);
    assert s.current + [p] == [p];
    LastFilter(arg, s.(mode := None, exclusion := false, current := [p], pos := s.pos + |p.token|));
  }

  predicate IsMark(c: char) { c == ' ' || c == '~' }

  lemma MarkSkipped(arg: string, s: State)
    requires s.mode == None && s.pos < |arg| && IsMark(arg[s.pos])
    ensures ParseFrom(arg, s) == ParseFrom(arg, s.(exclusion := s.exclusion || arg[s.pos] == '~', pos := s.pos + 1))
  {
    Parsed(arg, s);
    hide ParseFrom, WithPattern;
  }

  /** Blanks between patterns are skipped, and among them any number of "~" excludes what follows. */
  lemma {:induction false} MarksSkipped(arg: string, s: State, n: nat)
    requires s.mode == None && s.pos + n <= |arg| && forall i :: s.pos <= i < s.pos + n ==> IsMark(arg[i])
    ensures ParseFrom(arg, s) ==
              ParseFrom(arg, s.(exclusion := s.exclusion || '~' in arg[s.pos..s.pos + n], pos := s.pos + n))
    decreases n
  {
    hide ParseFrom;
    if n == 0 {
    } else {
      MarkSkipped(arg, s);
      assert arg[s.pos..s.pos + n] == [arg[s.pos]] + arg[s.pos + 1..s.pos + n];
      MarksSkipped(arg, s.(exclusion := s.exclusion || arg[s.pos] == '~', pos := s.pos + 1), n - 1);
    }
  }
}
