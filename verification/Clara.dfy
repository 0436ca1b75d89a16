/** The command-line tokenizer: from arguments to options and positional tokens. */
module Clara {

  datatype TokenType = PositionalToken | ShortOptToken | LongOptToken

  datatype Token = Token(kind: TokenType, data: string)

  datatype Mode = None | MaybeShortOpt | ShortOpt | LongOpt | Positional

  /** The tokenizer's variables; they outlive an argument. */
  datatype State = State(mode: Mode, from: nat, inQuotes: bool, tokens: seq<Token>)

  const NUL: char := 0 as char

  /** The character at a position; a string ends with a NUL. */
  function At(arg: string, i: nat): char {
    if i < |arg| then arg[i] else NUL
  }

  /** The text from `from` up to `i`; a stale `from` cannot occur in a run. */
  function Text(arg: string, from: nat, i: nat): string {
    if from <= i <= |arg| then arg[from..i] else ""
  }

  predicate EndsOption(c: char) { c == ':' || c == '=' || c == NUL }

  function ShortTokens(name: string): seq<Token> {
    seq(|name|, i requires 0 <= i < |name| => Token(ShortOptToken, [name[i]]))
  }

  function HandleNone(s: State, i: nat, c: char): State {
    if s.inQuotes || c != '-' then s.(from := i, mode := Positional) else s.(mode := MaybeShortOpt)
  }

  function HandleMaybeShortOpt(s: State, i: nat, c: char): State {
    if c == '-' then s.(from := i + 1, mode := LongOpt) else s.(from := i, mode := ShortOpt)
  }

  function HandleOpt(s: State, i: nat, c: char, arg: string): State {
    if !EndsOption(c) then s
    else
      var name := Text(arg, s.from, i);
      s.(mode := None,
         tokens := s.tokens + (if s.mode == ShortOpt then ShortTokens(name) else [Token(LongOptToken, name)]))
  }

  function HandlePositional(s: State, i: nat, c: char, arg: string): State {
    if s.inQuotes || c != NUL then s
    else s.(mode := None, tokens := s.tokens + [Token(PositionalToken, Text(arg, s.from, i))])
  }

  function HandleMode(s: State, i: nat, c: char, arg: string): State {
    match s.mode
    case None => HandleNone(s, i, c)
    case MaybeShortOpt => HandleMaybeShortOpt(s, i, c)
    case ShortOpt => HandleOpt(s, i, c, arg)
    case LongOpt => HandleOpt(s, i, c, arg)
    case Positional => HandlePositional(s, i, c, arg)
  }

  function Visit(s: State, i: nat, arg: string): State {
    var c := At(arg, i);
    HandleMode(if c == '"' then s.(inQuotes := !s.inQuotes) else s, i, c, arg)
  }

  /** One argument, from position i on, its terminating NUL included. */
  function ArgFrom(s: State, arg: string, i: nat): State
    decreases |arg| + 1 - i
  {
    if i > |arg| then s else ArgFrom(Visit(s, i, arg), arg, i + 1)
  }

  /** The arguments from position i on, up to a lone "--". */
  function ArgsFrom(s: State, args: seq<string>, i: nat): State
    decreases |args| - i
  {
    if i >= |args| || args[i] == "--" then s else ArgsFrom(ArgFrom(s, args[i], 0), args, i + 1)
  }

  const INITIAL: State := State(None, 0, false, [])

  // ----- the tokenizer -----

  class Parser {
    var mode: Mode
    var from: nat
    var inQuotes: bool

    function Value(tokens: seq<Token>): State
      reads this
    {
      State(mode, from, inQuotes, tokens)
    }

    constructor ()
      ensures mode == None && from == 0 && !inQuotes
    {
      mode, from, inQuotes := None, 0, false;
    }

    /** All arguments but the first, which names the program. */
    method ParseArgs(args: seq<string>, before: seq<Token>) returns (tokens: seq<Token>)
      modifies this
      ensures Value(tokens) == ArgsFrom(old(Value(before)), args, 1)
    {
      tokens := before;
      var i := 1;
      while i < |args| && args[i] != "--"
        invariant 1 <= i
        invariant ArgsFrom(Value(tokens), args, i) == ArgsFrom(old(Value(before)), args, 1)
        decreases |args| - i
      {
        tokens := ParseArg(args[i], tokens);
        i := i + 1;
      }
    }

    method ParseArg(arg: string, before: seq<Token>) returns (tokens: seq<Token>)
      modifies this
      ensures Value(tokens) == ArgFrom(old(Value(before)), arg, 0)
    {
      tokens := before;
      var i := 0;
      while i <= |arg|
        invariant 0 <= i <= |arg| + 1
        invariant ArgFrom(Value(tokens), arg, i) == ArgFrom(old(Value(before)), arg, 0)
      {
        var c := At(arg, i);
        if c == '"' {
          inQuotes := !inQuotes;
        }
        tokens := DoHandleMode(i, c, arg, tokens);
        i := i + 1;
      }
    }

    method DoHandleMode(i: nat, c: char, arg: string, before: seq<Token>) returns (tokens: seq<Token>)
      modifies this`mode, this`from
      ensures Value(tokens) == HandleMode(old(Value(before)), i, c, arg)
    {
      tokens := before;
      match mode {
        case None =>
          if inQuotes {
            from, mode := i, Positional;
          } else if c == '-' {
            mode := MaybeShortOpt;
          } else {
            from, mode := i, Positional;
          }
        case MaybeShortOpt =>
          if c == '-' {
            from, mode := i + 1, LongOpt;
          } else {
            from, mode := i, ShortOpt;
          }
        case ShortOpt => tokens := DoHandleOpt(i, c, arg, tokens);
        case LongOpt => tokens := DoHandleOpt(i, c, arg, tokens);
        case Positional =>
          if !inQuotes && c == NUL {
            tokens := tokens + [Token(PositionalToken, Text(arg, from, i))];
            mode := None;
          }
      }
    }

    method DoHandleOpt(i: nat, c: char, arg: string, before: seq<Token>) returns (tokens: seq<Token>)
      requires mode == ShortOpt || mode == LongOpt
      modifies this`mode
      ensures Value(tokens) == HandleOpt(old(Value(before)), i, c, arg)
    {
      tokens := before;
      if !EndsOption(c) {
        return;
      }
      var name := Text(arg, from, i);
      if mode == ShortOpt {
        var j := 0;
        while j < |name|
          invariant 0 <= j <= |name|
          invariant tokens == before + ShortTokens(name)[..j]
        {
          tokens := tokens + [Token(ShortOptToken, [name[j]])];
          j := j + 1;
        }
        assert ShortTokens(name)[..j] == ShortTokens(name);
      } else {
        tokens := tokens + [Token(LongOptToken, name)];
      }
      mode := None;
    }
  }

  // ----- printed arguments -----

  /** An argument as a user means it; an option may carry a value. */
  datatype Argument =
    | Long(name: string)
    | LongWith(name: string, separator: char, value: string)
    | Shorts(letters: string)
    | ShortsWith(letters: string, separator: char, value: string)
    | Plain(text: string)

  function Printed(a: Argument): string {
    match a
    case Long(name) => "--" + name
    case LongWith(name, separator, value) => "--" + name + [separator] + value
    case Shorts(letters) => "-" + letters
    case ShortsWith(letters, separator, value) => "-" + letters + [separator] + value
    case Plain(text) => text
  }

  function Meant(a: Argument): seq<Token> {
    match a
    case Long(name) => [Token(LongOptToken, name)]
    case LongWith(name, _, value) => [Token(LongOptToken, name), Token(PositionalToken, value)]
    case Shorts(letters) => ShortTokens(letters)
    case ShortsWith(letters, _, value) => ShortTokens(letters) + [Token(PositionalToken, value)]
    case Plain(text) => [Token(PositionalToken, text)]
  }

  predicate Quiet(s: string) { '"' !in s && NUL !in s }

  predicate OptionName(s: string) { s != "" && Quiet(s) && ':' !in s && '=' !in s }

  predicate PlainText(s: string) { s != "" && s[0] != '-' && Quiet(s) }

  predicate IsSeparator(c: char) { c == '=' || c == ':' }

  predicate Clean(a: Argument) {
    match a
    case Long(name) => OptionName(name)
    case LongWith(name, separator, value) => OptionName(name) && IsSeparator(separator) && PlainText(value)
    case Shorts(letters) => OptionName(letters) && letters[0] != '-'
    case ShortsWith(letters, separator, value) =>
      OptionName(letters) && letters[0] != '-' && IsSeparator(separator) && PlainText(value)
    case Plain(text) => PlainText(text)
  }

  /** Inside an option, nothing happens up to the character that ends it. */
  lemma {:induction false} OptionScanned(s: State, arg: string, i: nat, e: nat)
    requires (s.mode == ShortOpt || s.mode == LongOpt) && !s.inQuotes && s.from <= i <= e <= |arg|
    requires forall k :: i <= k < e ==> arg[k] != '"' && !EndsOption(arg[k])
    requires EndsOption(At(arg, e))
    ensures ArgFrom(s, arg, i) ==
              ArgFrom(State(None, s.from, false,
                            s.tokens + (if s.mode == ShortOpt then ShortTokens(arg[s.from..e]) else [Token(LongOptToken, arg[s.from..e])])),
                      arg, e + 1)
    decreases e - i
  {
    if i < e {
      assert Visit(s, i, arg) == s;
      OptionScanned(s, arg, i + 1, e);
    }
  }

  /** Positional text runs to the end of the argument. */
  lemma {:induction false} TextScanned(s: State, arg: string, i: nat)
    requires s.mode == Positional && !s.inQuotes && s.from <= i <= |arg|
    requires forall k :: i <= k < |arg| ==> arg[k] != '"' && arg[k] != NUL
    ensures ArgFrom(s, arg, i) == State(None, s.from, false, s.tokens + [Token(PositionalToken, arg[s.from..])])
    decreases |arg| - i
  {
    if i < |arg| {
      assert Visit(s, i, arg) == s;
      TextScanned(s, arg, i + 1);
    } else {
      assert ArgFrom(Visit(s, i, arg), arg, i + 1) == Visit(s, i, arg);
      assert arg[s.from..i] == arg[s.from..];
    }
  }

  lemma ValueScanned(s: State, arg: string, i: nat, value: string)
    requires s.mode == None && !s.inQuotes && i <= |arg| && arg[i..] == value && PlainText(value)
    ensures ArgFrom(s, arg, i) == State(None, i, false, s.tokens + [Token(PositionalToken, value)])
  {
    assert arg[i] == value[0];
    forall k | i <= k < |arg| ensures arg[k] != '"' && arg[k] != NUL {
      assert arg[k] == value[k - i];
    }
    assert Visit(s, i, arg) == s.(from := i, mode := Positional);
    TextScanned(s.(from := i, mode := Positional), arg, i + 1);
  }

  lemma OptionParts(arg: string, from: nat, name: string, separator: char, value: string)
    requires from <= |arg| && OptionName(name) && IsSeparator(separator)
    requires arg[from..] == if value == "" then name else name + [separator] + value
    ensures var e := from + |name|;
            && e <= |arg| && arg[from..e] == name && EndsOption(At(arg, e))
            && (forall k :: from <= k < e ==> arg[k] != '"' && !EndsOption(arg[k]))
            && (value != "" ==> e < |arg| && arg[e + 1..] == value && arg[e] == separator)
            && (value == "" ==> e == |arg|)
  {
    var e := from + |name|;
    forall k | from <= k < e ensures arg[k] != '"' && !EndsOption(arg[k]) {
      assert arg[k] == arg[from..][k - from] == name[k - from];
    }
    assert value != "" ==> arg[e] == arg[from..][|name|] == separator && arg[e + 1..] == arg[from..][|name| + 1..];
    assert arg[from..e] == arg[from..][..|name|];
  }

  lemma NothingBehind(s: State, arg: string, i: nat)
    requires i > |arg|
    ensures ArgFrom(s, arg, i) == s
  {
  }

  /** An option, with its value if there is one. */
  lemma OptionRead(s: State, arg: string, i: nat, name: string, separator: char, value: string)
    requires (s.mode == ShortOpt || s.mode == LongOpt) && !s.inQuotes && s.from <= i <= s.from + |name|
    requires OptionName(name) && s.from <= |arg| && IsSeparator(separator)
    requires arg[s.from..] == (if value == "" then name else name + [separator] + value) && (value != "" ==> PlainText(value))
    ensures var opts := if s.mode == ShortOpt then ShortTokens(name) else [Token(LongOptToken, name)];
            var t := ArgFrom(s, arg, i);
            && t.mode == None && !t.inQuotes
            && t.tokens == s.tokens + opts + (if value == "" then [] else [Token(PositionalToken, value)])
  {
    var e := s.from + |name|;
    OptionParts(arg, s.from, name, separator, value);
    hide *;
    OptionReadAt(s, arg, i, e, name, value);
  }

  lemma OptionReadAt(s: State, arg: string, i: nat, e: nat, name: string, value: string)
    requires (s.mode == ShortOpt || s.mode == LongOpt) && !s.inQuotes && s.from <= i <= e <= |arg| && arg[s.from..e] == name
    requires (forall k :: s.from <= k < e ==> arg[k] != '"' && !EndsOption(arg[k])) && EndsOption(At(arg, e))
    requires if value == "" then e == |arg| else e < |arg| && arg[e + 1..] == value && PlainText(value)
    ensures var opts := if s.mode == ShortOpt then ShortTokens(name) else [Token(LongOptToken, name)];
            var t := ArgFrom(s, arg, i);
            && t.mode == None && !t.inQuotes
            && t.tokens == s.tokens + opts + (if value == "" then [] else [Token(PositionalToken, value)])
  {
    hide *;
    OptionScanned(s, arg, i, e);
    var opts := if s.mode == ShortOpt then ShortTokens(name) else [Token(LongOptToken, name)];
    var t := State(None, s.from, false, s.tokens + opts);
    assert ArgFrom(s, arg, i) == ArgFrom(t, arg, e + 1);
    if value == "" {
      NothingBehind(t, arg, e + 1);
    } else {
      ValueScanned(t, arg, e + 1, value);
    }
  }

  /** One printed argument gives its tokens back and leaves the tokenizer ready for the next. */
  lemma ArgumentRoundTrip(s: State, a: Argument)
    requires s.mode == None && !s.inQuotes && Clean(a)
    ensures var t := ArgFrom(s, Printed(a), 0);
            t.mode == None && !t.inQuotes && t.tokens == s.tokens + Meant(a)
  {
    var arg := Printed(a);
    match a
    case Plain(text) =>
      assert arg[0..] == text;
      ValueScanned(s, arg, 0, text);
    case Long(name) => LongRead(s, arg, name, '=', "");
    case LongWith(name, separator, value) => LongRead(s, arg, name, separator, value);
    case Shorts(letters) => ShortRead(s, arg, letters, '=', "");
    case ShortsWith(letters, separator, value) => ShortRead(s, arg, letters, separator, value);
  }

  lemma LongRead(s: State, arg: string, name: string, separator: char, value: string)
    requires IsSeparator(separator) && s.mode == None && !s.inQuotes && OptionName(name) && (value != "" ==> PlainText(value))
    requires arg == if value == "" then "--" + name else "--" + name + [separator] + value
    ensures var t := ArgFrom(s, arg, 0);
            && t.mode == None && !t.inQuotes
            && t.tokens == s.tokens + [Token(LongOptToken, name)] + (if value == "" then [] else [Token(PositionalToken, value)])
  {
    assert arg[0] == '-' && arg[1] == '-';
    var s1 := s.(mode := MaybeShortOpt);
    var s2 := s.(mode := LongOpt, from := 2);
    assert Visit(s, 0, arg) == s1 && Visit(s1, 1, arg) == s2;
    assert arg[2..] == if value == "" then name else name + [separator] + value;
    OptionRead(s2, arg, 2, name, separator, value);
  }

  lemma ShortRead(s: State, arg: string, letters: string, separator: char, value: string)
    requires IsSeparator(separator) && s.mode == None && !s.inQuotes && OptionName(letters) && letters[0] != '-' && (value != "" ==> PlainText(value))
    requires arg == if value == "" then "-" + letters else "-" + letters + [separator] + value
    ensures var t := ArgFrom(s, arg, 0);
            && t.mode == None && !t.inQuotes
            && t.tokens == s.tokens + ShortTokens(letters) + (if value == "" then [] else [Token(PositionalToken, value)])
  {
    assert arg[0] == '-' && arg[1] == letters[0];
    var s1 := s.(mode := MaybeShortOpt);
    var s2 := s.(mode := ShortOpt, from := 1);
    assert Visit(s, 0, arg) == s1 && Visit(s1, 1, arg) == s2;
    assert arg[1..] == if value == "" then letters else letters + [separator] + value;
    OptionRead(s2, arg, 2, letters, separator, value);
  }

  function AllMeant(arguments: seq<Argument>): seq<Token> {
    if arguments == [] then [] else Meant(arguments[0]) + AllMeant(arguments[1..])
  }

  function AllPrinted(arguments: seq<Argument>): seq<string> {
    seq(|arguments|, i requires 0 <= i < |arguments| => Printed(arguments[i]))
  }

  lemma {:induction false} ArgumentsRead(s: State, program: string, arguments: seq<Argument>, i: nat)
    requires s.mode == None && !s.inQuotes && i <= |arguments| && forall a <- arguments :: Clean(a)
    ensures var t := ArgsFrom(s, [program] + AllPrinted(arguments), i + 1);
            t.mode == None && !t.inQuotes && t.tokens == s.tokens + AllMeant(arguments[i..])
    decreases |arguments| - i
  {
    hide ArgFrom, Clean, Printed, Meant;
    if i < |arguments| {
      var args := [program] + AllPrinted(arguments);
      var a := arguments[i];
      assert args[i + 1] == Printed(a) && Clean(a);
      NotTheTerminator(a);
      ArgumentRoundTrip(s, a);
      ArgumentsRead(ArgFrom(s, Printed(a), 0), program, arguments, i + 1);
      assert arguments[i..][1..] == arguments[i + 1..];
    }
  }

  lemma NotTheTerminator(a: Argument)
    requires Clean(a)
    ensures Printed(a) != "--"
  {
    if a.Shorts? || a.ShortsWith? {
      assert Printed(a)[1] == a.letters[0];
    }
  }

  /** Tokenizing printed arguments gives exactly the tokens that were meant. */
  lemma ArgumentsRoundTrip(program: string, arguments: seq<Argument>)
    requires forall a <- arguments :: Clean(a)
    ensures var t := ArgsFrom(INITIAL, [program] + AllPrinted(arguments), 1);
            t.mode == None && !t.inQuotes && t.tokens == AllMeant(arguments)
  {
    ArgumentsRead(INITIAL, program, arguments, 0);
    assert arguments[0..] == arguments;
  }

  /** What follows a lone "--" makes no difference. */
  lemma {:induction false} StopsAtTerminator(s: State, args: seq<string>, others: seq<string>, i: nat)
    requires i <= |args|
    ensures ArgsFrom(s, args + ["--"] + others, i) == ArgsFrom(s, args, i)
    decreases |args| - i
  {
    var all := args + ["--"] + others;
    hide ArgFrom;
    if i == |args| {
      assert all[i] == "--";
    } else {
      assert all[i] == args[i];
      StopsAtTerminator(ArgFrom(s, args[i], 0), args, others, i + 1);
    }
  }

  /** So the tokens of printed arguments are the same whatever stands behind a lone "--". */
  lemma NothingBehindTerminator(program: string, arguments: seq<Argument>, others: seq<string>)
    requires forall a <- arguments :: Clean(a)
    ensures ArgsFrom(INITIAL, [program] + AllPrinted(arguments) + ["--"] + others, 1).tokens == AllMeant(arguments)
  {
    ArgumentsRoundTrip(program, arguments);
    StopsAtTerminator(INITIAL, [program] + AllPrinted(arguments), others, 1);
  }

  /** In quotes an argument is positional, whatever it begins with; the quotes are part of it. */
  lemma QuotedIsPositional(s: State, text: string)
    requires s.mode == None && !s.inQuotes && Quiet(text)
    ensures var arg := "\"" + text + "\"";
            var t := ArgFrom(s, arg, 0);
            t.mode == None && !t.inQuotes && t.tokens == s.tokens + [Token(PositionalToken, arg)]
  {
    var arg := "\"" + text + "\"";
    var open := s.(mode := Positional, from := 0, inQuotes := true);
    assert arg[0] == '"' && Visit(s, 0, arg) == open;
    forall k | 1 <= k < |arg| - 1 ensures arg[k] != '"' && arg[k] != NUL {
      assert arg[k] == text[k - 1];
    }
    InsideQuotes(open, arg, 1, |arg| - 1);
    var e := |arg| - 1;
    assert Visit(open, e, arg) == open.(inQuotes := false);
    TextScanned(open.(inQuotes := false), arg, e + 1);
    assert arg[0..] == arg;
  }

  lemma {:induction false} InsideQuotes(s: State, arg: string, i: nat, e: nat)
    requires s.mode == Positional && s.inQuotes && i <= e < |arg|
    requires forall k :: i <= k < e ==> arg[k] != '"' && arg[k] != NUL
    ensures ArgFrom(s, arg, i) == ArgFrom(s, arg, e)
    decreases e - i
  {
    if i == e {
    } else {
      assert Visit(s, i, arg) == s;
      InsideQuotes(s, arg, i + 1, e);
    }
  }

  /** `--name=value` and `--name:value` read like `--name value`. */
  lemma ValueMayBeSeparate(program: string, name: string, separator: char, value: string)
    requires OptionName(name) && PlainText(value) && IsSeparator(separator)
    ensures ArgsFrom(INITIAL, [program, "--" + name + [separator] + value], 1).tokens ==
            ArgsFrom(INITIAL, [program, "--" + name, value], 1).tokens
  {
    var joined, apart := [LongWith(name, separator, value)], [Long(name), Plain(value)];
    ArgumentsRoundTrip(program, joined);
    ArgumentsRoundTrip(program, apart);
    assert [program] + AllPrinted(joined) == [program, "--" + name + [separator] + value];
    assert [program] + AllPrinted(apart) == [program, "--" + name, value];
    assert apart[1..] == [Plain(value)] && joined[1..] == [] && apart[1..][1..] == [];
    assert AllMeant(joined) == Meant(joined[0]) + [];
    assert AllMeant(apart) == Meant(apart[0]) + (Meant(apart[1]) + []);
  }
}
