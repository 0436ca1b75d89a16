/** Test specifications: the parser that turns a command-line string into filters, and their
    canonical printed form. */
module TestSpec {
  import opened Strings

  datatype Kind = NameToken | TagToken

  datatype Pattern = Pattern(kind: Kind, token: string, excluded: bool)

  /** A filter is a conjunction of patterns, a specification a disjunction of filters. */
  type Filter = seq<Pattern>

  datatype Mode = None | Name | QuotedName | Tag

  /** The parser's variables; `start` is where the current token begins. */
  datatype State = State(
    mode: Mode, exclusion: bool, start: nat, pos: nat, current: Filter, filters: seq<Filter>)

  // ----- parsing, as functions -----

  /** The current token; out of range positions cannot occur in a run. */
  function Token(arg: string, s: State): string {
    if s.start <= s.pos <= |arg| then arg[s.start..s.pos] else ""
  }

  function WithPattern(arg: string, s: State, kind: Kind): State {
    var token := Token(arg, s);
    var prefixed := StartsWith(token, "exclude:");
    var rest := if prefixed then token[8..] else token;
    var added := if rest == "" then [] else [Pattern(kind, rest, s.exclusion || prefixed)];
    s.(current := s.current + added, exclusion := false, mode := None)
  }

  function WithFilter(s: State): State {
    if s.current == [] then s else s.(filters := s.filters + [s.current], current := [])
  }

  /** A delimiter opens a token; the character after it is consumed unseen. */
  function OpenToken(s: State, mode: Mode): State {
    s.(mode := mode, start := s.pos + 1, pos := s.pos + 1)
  }

  function VisitName(arg: string, s: State, c: char): State {
    if c == ',' then WithFilter(WithPattern(arg, s, NameToken))
    else if c == '[' then
      OpenToken(if Token(arg, s) == "exclude:" then s.(exclusion := true) else WithPattern(arg, s, NameToken), Tag)
    else s
  }

  function Visit(arg: string, s: State, c: char): State {
    match s.mode
    case None =>
      if c == ' ' then s
      else if c == '~' then s.(exclusion := true)
      else if c == '[' then OpenToken(s, Tag)
      else if c == '"' then OpenToken(s, QuotedName)
      else VisitName(arg, s.(mode := Name, start := s.pos), c)
    case Name => VisitName(arg, s, c)
    case QuotedName => if c == '"' then WithPattern(arg, s, NameToken) else s
    case Tag => if c == ']' then WithPattern(arg, s, TagToken) else s
  }

  lemma VisitMovesOn(arg: string, s: State, c: char)
    ensures s.pos <= Visit(arg, s, c).pos
  {
  }

  /** The parser's loop, from its present state on, and what it does at the end of the string. */
  function ParseFrom(arg: string, s: State): State
    decreases |arg| - s.pos
  {
    if s.pos >= |arg| then
      if s.mode == Name then WithPattern(arg, s, NameToken) else s
    else
      var v := Visit(arg, s, arg[s.pos]);
      VisitMovesOn(arg, s, arg[s.pos]);
      ParseFrom(arg, v.(pos := v.pos + 1))
  }

  function Fresh(current: Filter, filters: seq<Filter>): State {
    State(None, false, 0, 0, current, filters)
  }

  /** The filters of a specification string. */
  function Filters(arg: string): seq<Filter> {
    WithFilter(ParseFrom(arg, Fresh([], []))).filters
  }

  // ----- the parser -----

  class TestSpecParser {
    var mode: Mode
    var exclusion: bool
    var start: nat
    var pos: nat
    var arg: string
    var currentFilter: Filter
    var filters: seq<Filter>

    /** Tag aliases are expanded by this function before parsing. */
    const expandAliases: string -> string

    function Value(): State
      reads this
    {
      State(mode, exclusion, start, pos, currentFilter, filters)
    }

    constructor (expandAliases: string -> string)
      ensures currentFilter == [] && filters == [] && this.expandAliases == expandAliases
    {
      this.expandAliases := expandAliases;
      mode, exclusion, start, pos, arg := None, false, 0, 0, "";
      currentFilter, filters := [], [];
    }

    method Parse(arg: string)
      modifies this
      ensures Value() == ParseFrom(expandAliases(arg), Fresh(old(currentFilter), old(filters)))
    {
      mode, exclusion, start := None, false, 0;
      this.arg := expandAliases(arg);
      pos := 0;
      while pos < |this.arg|
        invariant this.arg == expandAliases(arg)
        invariant ParseFrom(this.arg, Value()) == ParseFrom(this.arg, Fresh(old(currentFilter), old(filters)))
        decreases |this.arg| - pos
      {
        VisitMovesOn(this.arg, Value(), this.arg[pos]);
        VisitChar(this.arg[pos]);
        pos := pos + 1;
      }
      if mode == Name {
        AddPattern(NameToken);
      }
    }

    method VisitChar(c: char)
      modifies this
      ensures Value() == Visit(arg, old(Value()), c) && arg == old(arg)
    {
      if mode == None {
        match c {
          case ' ' => return;
          case '~' => exclusion := true; return;
          case '[' => pos := pos + 1; StartNewMode(Tag, pos); return;
          case '"' => pos := pos + 1; StartNewMode(QuotedName, pos); return;
          case _ => StartNewMode(Name, pos);
        }
      }
      if mode == Name {
        if c == ',' {
          AddPattern(NameToken);
          AddFilter();
        } else if c == '[' {
          if SubString() == "exclude:" {
            exclusion := true;
          } else {
            AddPattern(NameToken);
          }
          pos := pos + 1;
          StartNewMode(Tag, pos);
        }
      } else if mode == QuotedName && c == '"' {
        AddPattern(NameToken);
      } else if mode == Tag && c == ']' {
        AddPattern(TagToken);
      }
    }

    method StartNewMode(mode: Mode, start: nat)
      modifies this`mode, this`start
      ensures this.mode == mode && this.start == start
    {
      this.mode, this.start := mode, start;
    }

    function SubString(): string
      reads this
    {
      Token(arg, Value())
    }

    method AddPattern(kind: Kind)
      modifies this`exclusion, this`mode, this`currentFilter
      ensures Value() == WithPattern(arg, old(Value()), kind)
    {
      var token := SubString();
      if StartsWith(token, "exclude:") {
        exclusion := true;
        token := token[8..];
      }
      if token != "" {
        currentFilter := currentFilter + [Pattern(kind, token, exclusion)];
      }
      exclusion, mode := false, None;
    }

    method AddFilter()
      modifies this`currentFilter, this`filters
      ensures Value() == WithFilter(old(Value()))
    {
      if currentFilter != [] {
        filters := filters + [currentFilter];
        currentFilter := [];
      }
    }

    method TestSpec() returns (spec: seq<Filter>)
      modifies this`currentFilter, this`filters
      ensures spec == filters == WithFilter(old(Value())).filters
    {
      AddFilter();
      return filters;
    }
  }

  /** Parsing one string with a new parser. */
  method ParseTestSpec(expandAliases: string -> string, arg: string) returns (spec: seq<Filter>)
    ensures spec == Filters(expandAliases(arg))
  {
    var parser := new TestSpecParser(expandAliases);
    parser.Parse(arg);
    spec := parser.TestSpec();
  }
}
