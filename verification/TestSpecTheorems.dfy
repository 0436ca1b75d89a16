/** Parsing the canonical form of a specification gives the specification back. */
module TestSpecTheorems {
  import opened Strings
  import opened TestSpec

  function Opening(kind: Kind): char { if kind.TagToken? then '[' else '"' }

  function Closing(kind: Kind): char { if kind.TagToken? then ']' else '"' }

  function ModeOf(kind: Kind): Mode { if kind.TagToken? then Tag else QuotedName }

  /** Canonical form: `[tag]` or `"name"`, behind `~` if excluded. */
  function PatternText(p: Pattern): string {
    (if p.excluded then "~" else "") + [Opening(p.kind)] + p.token + [Closing(p.kind)]
  }

  function FilterText(f: Filter): string {
    if f == [] then "" else PatternText(f[0]) + FilterText(f[1..])
  }

  function SpecText(spec: seq<Filter>): string {
    if spec == [] then ""
    else if |spec| == 1 then FilterText(spec[0])
    else FilterText(spec[0]) + "," + SpecText(spec[1..])
  }

  /** Tokens a canonical form can carry. */
  predicate Printable(p: Pattern) {
    p.token != "" && Closing(p.kind) !in p.token && !StartsWith(p.token, "exclude:")
  }

  predicate PrintableFilter(f: Filter) { forall p <- f :: Printable(p) }

  /** One turn of the parser's loop, and its end. */
  lemma Parsed(arg: string, s: State)
    ensures s.pos < |arg| ==>
              var v := Visit(arg, s, arg[s.pos]); ParseFrom(arg, s) == ParseFrom(arg, v.(pos := v.pos + 1))
    ensures s.pos >= |arg| && s.mode == None ==> ParseFrom(arg, s) == s
  {
    hide Visit, WithPattern;
  }

  /** A token is scanned up to its closing delimiter. */
  lemma {:induction false} TokenScanned(arg: string, s: State, kind: Kind, e: nat)
    requires s.mode == ModeOf(kind) && s.start <= s.pos <= e < |arg|
    requires arg[e] == Closing(kind) && forall i :: s.pos <= i < e ==> arg[i] != Closing(kind)
    ensures ParseFrom(arg, s) == ParseFrom(arg, WithPattern(arg, s.(pos := e), kind).(pos := e + 1))
    decreases e - s.pos
  {
    Parsed(arg, s);
    hide ParseFrom;
    if s.pos < e {
      TokenScanned(arg, s.(pos := s.pos + 1), kind, e);
    }
  }

  lemma OccursInside(arg: string, a: string, b: string, p: nat)
    requires OccursAt(arg, a + b, p)
    ensures OccursAt(arg, a, p) && OccursAt(arg, b, p + |a|)
  {
    var s := arg[p..p + |a + b|];
    assert s[..|a|] == a && s[|a|..] == b;
    assert arg[p..p + |a|] == s[..|a|] && arg[p + |a|..p + |a| + |b|] == s[|a|..];
  }

  lemma OccursHere(arg: string, s: string, p: nat, i: nat)
    requires OccursAt(arg, s, p) && i < |s|
    ensures p + i < |arg| && arg[p + i] == s[i]
  {
    assert arg[p..p + |s|][i] == arg[p + i];
  }

  /** Behind its opening delimiter, a token and its closing delimiter make one pattern. */
  lemma TokenParsed(arg: string, s: State, p: Pattern)
    requires s.mode == ModeOf(p.kind) && s.start == s.pos - 1 && s.exclusion == p.excluded && Printable(p)
    requires 0 < s.pos && OccursAt(arg, p.token + [Closing(p.kind)], s.pos - 1)
    ensures ParseFrom(arg, s) ==
              ParseFrom(arg, s.(mode := None, exclusion := false, current := s.current + [p], pos := s.pos + |p.token|))
  {
    hide ParseFrom;
    var e := s.pos - 1 + |p.token|;
    OccursInside(arg, p.token, [Closing(p.kind)], s.pos - 1);
    OccursHere(arg, [Closing(p.kind)], e, 0);
    forall i | s.pos <= i < e ensures arg[i] != Closing(p.kind) {
      OccursHere(arg, p.token, s.pos - 1, i - s.pos + 1);
    }
    TokenScanned(arg, s, p.kind, e);
    assert Token(arg, s.(pos := e)) == p.token;
  }

  lemma PatternTextParts(p: Pattern)
    ensures PatternText(p) == (if p.excluded then "~" else "") + ([Opening(p.kind)] + (p.token + [Closing(p.kind)]))
  {
  }

  /** One pattern in canonical form. */
  lemma PatternParsed(arg: string, s: State, p: Pattern) returns (start: nat)
    requires s.mode == None && !s.exclusion && Printable(p) && OccursAt(arg, PatternText(p), s.pos)
    ensures ParseFrom(arg, s) ==
              ParseFrom(arg, s.(current := s.current + [p], pos := s.pos + |PatternText(p)|, start := start))
  {
    PatternTextParts(p);
    hide ParseFrom, PatternText;
    var tail := [Opening(p.kind)] + (p.token + [Closing(p.kind)]);
    OccursInside(arg, if p.excluded then "~" else "", tail, s.pos);
    var s1 := s;
    if p.excluded {
      OccursHere(arg, "~", s.pos, 0);
      Parsed(arg, s);
      s1 := s.(exclusion := true, pos := s.pos + 1);
    }
    start := OpeningParsed(arg, s1, p);
  }

  lemma OpeningParsed(arg: string, s: State, p: Pattern) returns (start: nat)
    requires s.mode == None && s.exclusion == p.excluded && Printable(p)
    requires OccursAt(arg, [Opening(p.kind)] + (p.token + [Closing(p.kind)]), s.pos)
    ensures ParseFrom(arg, s) ==
              ParseFrom(arg, s.(exclusion := false, current := s.current + [p], pos := s.pos + |p.token| + 2, start := start))
  {
    hide ParseFrom;
    OccursInside(arg, [Opening(p.kind)], p.token + [Closing(p.kind)], s.pos);
    OccursHere(arg, [Opening(p.kind)], s.pos, 0);
    start := s.pos + 1;
    Parsed(arg, s);
    TokenParsed(arg, s.(mode := ModeOf(p.kind), start := start, pos := s.pos + 2), p);
  }

  lemma {:induction false} FilterParsed(arg: string, s: State, f: Filter) returns (start: nat)
    requires s.mode == None && !s.exclusion && PrintableFilter(f) && OccursAt(arg, FilterText(f), s.pos)
    ensures ParseFrom(arg, s) ==
              ParseFrom(arg, s.(current := s.current + f, pos := s.pos + |FilterText(f)|, start := start))
    decreases |f|
  {
    hide ParseFrom;
    if f == [] {
      start := s.start;
      assert s.current + f == s.current;
    } else {
      OccursInside(arg, PatternText(f[0]), FilterText(f[1..]), s.pos);
      start := PatternParsed(arg, s, f[0]);
      var s1 := s.(current := s.current + [f[0]], pos := s.pos + |PatternText(f[0])|, start := start);
      assert forall p <- f[1..] :: p in f;
      start := FilterParsed(arg, s1, f[1..]);
      assert s.current + [f[0]] + f[1..] == s.current + f;
    }
  }

  /** A comma ends the current filter. */
  lemma CommaParsed(arg: string, s: State)
    requires s.mode == None && !s.exclusion && s.pos < |arg| && arg[s.pos] == ','
    ensures ParseFrom(arg, s) == ParseFrom(arg, WithFilter(s).(start := s.pos, pos := s.pos + 1))
  {
    Parsed(arg, s);
    hide ParseFrom;
    var named := s.(mode := Name, start := s.pos);
    assert Token(arg, named) == "";
    assert s.current + [] == s.current;
    assert WithPattern(arg, named, NameToken) == named.(mode := None);
    assert Visit(arg, s, ',') == WithFilter(s).(start := s.pos);
  }

  lemma SpecTextParts(spec: seq<Filter>)
    requires spec != []
    ensures SpecText(spec) == FilterText(spec[0]) + (if |spec| == 1 then "" else "," + SpecText(spec[1..]))
  {
  }

  /** A filter, parsed from the beginning of what remains. */
  lemma FirstFilterParsed(arg: string, s: State, f: Filter, rest: string) returns (t: State)
    requires s.mode == None && !s.exclusion && s.current == [] && s.pos <= |arg| && PrintableFilter(f)
    requires arg[s.pos..] == FilterText(f) + rest
    ensures ParseFrom(arg, s) == ParseFrom(arg, t)
    ensures t.mode == None && !t.exclusion && t.current == f && t.filters == s.filters && t.pos <= |arg| && arg[t.pos..] == rest
  {
    hide ParseFrom, FilterText;
    assert OccursAt(arg, FilterText(f) + rest, s.pos);
    OccursInside(arg, FilterText(f), rest, s.pos);
    var start := FilterParsed(arg, s, f);
    t := s.(current := s.current + f, pos := s.pos + |FilterText(f)|, start := start);
    assert t.current == f;
  }

  /** The comma between two filters. */
  lemma NextFilter(arg: string, s: State, rest: string) returns (t: State)
    requires s.mode == None && !s.exclusion && s.current != [] && s.pos <= |arg|
    requires arg[s.pos..] == "," + rest
    ensures ParseFrom(arg, s) == ParseFrom(arg, t)
    ensures t.mode == None && !t.exclusion && t.current == [] && t.filters == s.filters + [s.current]
    ensures t.pos <= |arg| && arg[t.pos..] == rest
  {
    hide ParseFrom;
    assert arg[s.pos..][0] == ',' && arg[s.pos + 1..] == arg[s.pos..][1..];
    CommaParsed(arg, s);
    t := WithFilter(s).(start := s.pos, pos := s.pos + 1);
  }

  lemma LastFilter(arg: string, s: State)
    requires s.mode == None && s.pos >= |arg|
    ensures WithFilter(ParseFrom(arg, s)).filters == s.filters + (if s.current == [] then [] else [s.current])
  {
    Parsed(arg, s);
    hide ParseFrom;
  }

  predicate PrintableSpec(spec: seq<Filter>) {
    forall f <- spec :: f != [] && PrintableFilter(f)
  }

  lemma {:induction false} SpecParsed(arg: string, s: State, spec: seq<Filter>)
    requires s.mode == None && !s.exclusion && s.current == [] && s.pos <= |arg|
    requires arg[s.pos..] == SpecText(spec)
    requires PrintableSpec(spec)
    ensures WithFilter(ParseFrom(arg, s)).filters == s.filters + spec
    decreases |spec|
  {
    if spec == [] {
      LastFilter(arg, s);
    } else {
      SpecTextParts(spec);
      assert PrintableSpec(spec[1..]) && PrintableFilter(spec[0]) && spec[0] != [];
      FirstAndRest(s.filters, spec);
      hide *;
      if |spec| == 1 {
        var t := FirstFilterParsed(arg, s, spec[0], "");
        LastFilter(arg, t);
      } else {
        var t := FirstFilterParsed(arg, s, spec[0], "," + SpecText(spec[1..]));
        var u := NextFilter(arg, t, SpecText(spec[1..]));
        SpecParsed(arg, u, spec[1..]);
      }
    }
  }

  lemma FirstAndRest(a: seq<Filter>, spec: seq<Filter>)
    requires spec != []
    ensures a + [spec[0]] + spec[1..] == a + spec
    ensures |spec| == 1 ==> a + [spec[0]] == a + spec
  {
  }

  /** Printing filters in canonical form and parsing them gives the same filters. */
  lemma SpecRoundTrip(spec: seq<Filter>)
    requires PrintableSpec(spec)
    ensures Filters(SpecText(spec)) == spec
  {
    var arg := SpecText(spec);
    assert arg[0..] == arg;
    SpecParsed(arg, Fresh([], []), spec);
    assert [] + spec == spec;
  }
}
