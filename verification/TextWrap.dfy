/** The text wrapper: breaking a text into indented lines of limited width. */
module TextWrap {
  import opened Options
  import opened Strings

  /** Indents and the maximal width of a line, indent included. */
  datatype TextAttributes = TextAttributes(initialIndent: Option<nat>, indent: nat, width: nat, tabChar: char) {
    function FirstIndent(): nat {
      if initialIndent.Some? then initialIndent.value else indent
    }

    /** Every line has room for two characters. */
    predicate Roomy() { indent + 2 <= width && FirstIndent() + 2 <= width }
  }

  function Notice(): string { "... message truncated due to excessive size" }

  const MAX_LINES: nat := 1000

  /** Why a line ends where it does. */
  datatype Ending = TextEnds | NewlineFollows | BreakFollows | Hyphenated

  /** A line by its parts; `separator` is what is dropped behind it. */
  datatype Line = Line(indent: nat, content: string, ending: Ending, separator: string) | Truncation

  function Spaces(n: nat): string { seq(n, _ => ' ') }

  function Rendered(l: Line): string {
    if l.Truncation? then Notice()
    else Spaces(l.indent) + l.content + (if l.ending.Hyphenated? then "-" else "")
  }

  function RenderedAll(lines: seq<Line>): seq<string> {
    seq(|lines|, i requires 0 <= i < |lines| => Rendered(lines[i]))
  }

  predicate IsWrappable(c: char) { c in " [({.,/|\\-" }

  /** The last wrappable position up to `at`, or -1. */
  function LastWrappable(s: string, at: nat): (i: int)
    requires at < |s|
    ensures -1 <= i <= at && (i >= 0 ==> IsWrappable(s[i]))
    ensures forall j :: i < j <= at ==> !IsWrappable(s[j])
  {
    if IsWrappable(s[at]) then at else if at == 0 then -1 else LastWrappable(s, at - 1)
  }

  /** How far the next line reaches: to the end, the width, or a newline before that. */
  function Reach(s: string, room: nat): (w: nat)
    ensures w <= |s| && w <= room
    ensures '\n' !in s[..w]
  {
    var w := Min(|s|, room);
    var n := FirstOf('\n', s);
    if n < |s| && n <= w then n
    else
      assert s[..w] == s[..n][..w];
      w
  }

  /** The next line of a text, where `room` characters fit. */
  function Cut(s: string, indent: nat, room: nat): (l: Line)
    requires s != "" && room >= 2
    ensures l.Line? && |l.content| + |l.separator| <= |s| && 0 < |l.content| + |l.separator|
  {
    var w := Reach(s, room);
    if w == |s| then Line(indent, s, TextEnds, "")
    else if s[w] == '\n' then
      Line(indent, s[..w], NewlineFollows, if w <= 1 || |s| - w != 1 then "\n" else "")
    else
      var pos := LastWrappable(s, w);
      if pos > 0 then Line(indent, s[..pos], BreakFollows, if s[pos] == ' ' then " " else "")
      else Line(indent, s[..w - 1], Hyphenated, "")
  }

  function Behind(s: string, l: Line): string
    requires l.Line? && |l.content| + |l.separator| <= |s|
  {
    s[|l.content| + |l.separator|..]
  }

  function NextIndent(attr: TextAttributes, l: Line, indent: nat, count: nat): (next: nat)
    requires l.Line?
    ensures attr.Roomy() && indent + 2 <= attr.width ==> next + 2 <= attr.width
  {
    if l.ending.NewlineFollows? || (!l.ending.TextEnds? && count == 0) then attr.indent else indent
  }

  /** The lines of the remaining text, when `count` lines have been made. */
  function WrapFrom(attr: TextAttributes, s: string, indent: nat, count: nat): seq<Line>
    requires attr.Roomy() && indent + 2 <= attr.width
    decreases |s|
  {
    if s == "" then []
    else if count >= MAX_LINES then [Truncation]
    else
      var l := Cut(s, indent, attr.width - indent);
      [l] + WrapFrom(attr, Behind(s, l), NextIndent(attr, l, indent, count), count + 1)
  }

  function Wrapped(str: string, attr: TextAttributes): seq<Line>
    requires attr.Roomy()
  {
    WrapFrom(attr, str, attr.FirstIndent(), 0)
  }

  // ----- what the lines are -----

  predicate Truncated(lines: seq<Line>) { lines != [] && lines[|lines| - 1].Truncation? }

  /** Contents and separators put together again; the notice stands for nothing. */
  function Flattened(lines: seq<Line>): string {
    if lines == [] then ""
    else (if lines[0].Truncation? then "" else lines[0].content + lines[0].separator) + Flattened(lines[1..])
  }

  /** One line, cut off a text. */
  lemma CutIsSound(s: string, indent: nat, room: nat)
    requires s != "" && room >= 2
    ensures var l := Cut(s, indent, room);
            && s == l.content + l.separator + Behind(s, l)
            && l.separator in ["", " ", "\n"]
            && '\n' !in l.content
            && |Rendered(l)| <= indent + room
            && (l.ending.TextEnds? <==> Behind(s, l) == "" && l.content == s)
  {
    CutParts(s, indent, room);
    var l := Cut(s, indent, room);
    hide Cut, Reach, LastWrappable;
    Reassembled(s, |l.content|, |l.separator|);
    assert |Rendered(l)| == indent + |l.content| + (if l.ending.Hyphenated? then 1 else 0);
  }

  lemma Reassembled(s: string, n: nat, m: nat)
    requires n + m <= |s|
    ensures s == s[..n] + s[n..n + m] + s[n + m..]
  {
  }

  lemma CutParts(s: string, indent: nat, room: nat)
    requires s != "" && room >= 2
    ensures var l := Cut(s, indent, room);
            var n, m := |l.content|, |l.separator|;
            && l.content == s[..n] && l.separator == s[n..n + m] && l.separator in ["", " ", "\n"]
            && '\n' !in l.content && l.indent == indent
            && n + (if l.ending.Hyphenated? then 1 else 0) <= room
            && (l.ending.TextEnds? <==> n + m == |s| && n == |s|)
  {
    var l := Cut(s, indent, room);
    var w := Reach(s, room);
    assert forall c :: c in s[..|l.content|] ==> c in s[..w];
  }

  /** A line broken at a character is the longest that fits and ends before a wrappable one; a
      word is hyphenated only if it fills the line from its second character on. */
  lemma BreaksAreLate(s: string, indent: nat, room: nat)
    requires s != "" && room >= 2
    ensures var l := Cut(s, indent, room);
            && (l.ending.BreakFollows? ==>
                  && |l.content| < |s| && IsWrappable(s[|l.content|])
                  && room < |s| && forall j :: |l.content| < j <= room ==> !IsWrappable(s[j]))
            && (l.ending.Hyphenated? ==>
                  && |l.content| == room - 1
                  && room < |s| && forall j :: 0 < j <= room ==> !IsWrappable(s[j]))
  {
  }

  /** What is promised of the lines of a text. */
  ghost predicate Faithful(attr: TextAttributes, s: string, indent: nat, count: nat, lines: seq<Line>) {
    && |lines| + count <= MAX_LINES + 1
    && (Truncated(lines) <==> |lines| + count == MAX_LINES + 1)
    && (forall i :: 0 <= i < |lines| - 1 ==> !lines[i].Truncation?)
    && (forall i :: 0 <= i < |lines| && lines[i].Line? ==>
          && |Rendered(lines[i])| <= attr.width
          && '\n' !in lines[i].content
          && lines[i].separator in ["", " ", "\n"]
          && lines[i].indent == (if i == 0 then indent else attr.indent))
    && Flattened(lines) <= s
    && (!Truncated(lines) ==> Flattened(lines) == s)
  }

  lemma FlattenedFirst(l: Line, later: seq<Line>)
    requires l.Line?
    ensures Flattened([l] + later) == l.content + l.separator + Flattened(later)
  {
    assert ([l] + later)[1..] == later;
  }

  lemma PrefixBehind(a: string, b: string, c: string)
    requires b <= c
    ensures a + b <= a + c && (b == c ==> a + b == a + c)
  {
  }

  /** A sound line in front of faithful ones. */
  lemma PrependLine(attr: TextAttributes, s: string, indent: nat, count: nat, l: Line, rest: string, next: nat, later: seq<Line>)
    requires l.Line? && s == l.content + l.separator + rest && l.indent == indent
    requires |Rendered(l)| <= attr.width && '\n' !in l.content && l.separator in ["", " ", "\n"]
    requires Faithful(attr, rest, next, count + 1, later) && (later != [] ==> next == attr.indent) && count < MAX_LINES
    ensures Faithful(attr, s, indent, count, [l] + later)
  {
    hide Flattened, Rendered, Spaces;
    FlattenedFirst(l, later);
    PrefixBehind(l.content + l.separator, Flattened(later), rest);
    var lines := [l] + later;
    assert Truncated(lines) <==> Truncated(later);
    forall i | 1 <= i < |lines| ensures lines[i] == later[i - 1] {
    }
  }

  lemma NextIndentIsNormal(attr: TextAttributes, s: string, indent: nat, count: nat)
    requires s != "" && indent + 2 <= attr.width && (count > 0 ==> indent == attr.indent)
    ensures var l := Cut(s, indent, attr.width - indent);
            l.indent == indent && (Behind(s, l) != "" ==> NextIndent(attr, l, indent, count) == attr.indent)
  {
    CutIsSound(s, indent, attr.width - indent);
  }

  lemma {:induction false} WrapIsFaithful(attr: TextAttributes, s: string, indent: nat, count: nat)
    requires attr.Roomy() && indent + 2 <= attr.width && count <= MAX_LINES
    requires count > 0 && s != "" ==> indent == attr.indent
    ensures Faithful(attr, s, indent, count, WrapFrom(attr, s, indent, count))
    decreases |s|
  {
    hide Faithful, WrapFrom;
    if s == "" {
      EmptyIsFaithful(attr, indent, count);
    } else {
      if count == MAX_LINES {
        NoticeIsFaithful(attr, s, indent);
      } else {
        var l := Cut(s, indent, attr.width - indent);
        NextIndentIsNormal(attr, s, indent, count);
        WrapIsFaithful(attr, Behind(s, l), NextIndent(attr, l, indent, count), count + 1);
        LineThenRest(attr, s, indent, count);
      }
    }
  }

  lemma LineThenRest(attr: TextAttributes, s: string, indent: nat, count: nat)
    requires attr.Roomy() && indent + 2 <= attr.width && s != "" && count < MAX_LINES
    requires var l := Cut(s, indent, attr.width - indent);
             var next := NextIndent(attr, l, indent, count);
             && l.indent == indent && (Behind(s, l) != "" ==> next == attr.indent)
             && Faithful(attr, Behind(s, l), next, count + 1, WrapFrom(attr, Behind(s, l), next, count + 1))
    ensures Faithful(attr, s, indent, count, WrapFrom(attr, s, indent, count))
  {
    hide *;
    var l := Cut(s, indent, attr.width - indent);
    var next := NextIndent(attr, l, indent, count);
    WrapStep(attr, s, indent, count);
    CutIsSound(s, indent, attr.width - indent);
    NothingLeft(attr, next, count + 1);
    PrependLine(attr, s, indent, count, l, Behind(s, l), next, WrapFrom(attr, Behind(s, l), next, count + 1));
  }

  lemma EmptyIsFaithful(attr: TextAttributes, indent: nat, count: nat)
    requires attr.Roomy() && indent + 2 <= attr.width && count <= MAX_LINES
    ensures Faithful(attr, "", indent, count, WrapFrom(attr, "", indent, count))
  {
  }

  lemma NoticeIsFaithful(attr: TextAttributes, s: string, indent: nat)
    requires attr.Roomy() && indent + 2 <= attr.width && s != ""
    ensures Faithful(attr, s, indent, MAX_LINES, WrapFrom(attr, s, indent, MAX_LINES))
  {
    WrapStep(attr, s, indent, MAX_LINES);
    hide WrapFrom;
    assert Flattened([Truncation]) == "" + Flattened([]);
  }

  /** Every line but the notice keeps to the width, the first has the initial indent and the
      others the normal one, there are at most a thousand lines and the notice, and, unless that
      was needed, the text is the contents joined by what was dropped: each time nothing, one
      space or one newline. */
  lemma WrappingIsFaithful(str: string, attr: TextAttributes)
    requires attr.Roomy()
    ensures Faithful(attr, str, attr.FirstIndent(), 0, Wrapped(str, attr))
    ensures |Wrapped(str, attr)| <= 1001 && (Truncated(Wrapped(str, attr)) <==> |Wrapped(str, attr)| == 1001)
  {
    WrapIsFaithful(attr, str, attr.FirstIndent(), 0);
  }

  // ----- text that needs no breaks -----

  /** The text between newlines; there is always at least one piece, possibly empty. */
  function Pieces(s: string): (pieces: seq<string>)
    ensures pieces != []
    decreases |s|
  {
    var n := FirstOf('\n', s);
    if n == |s| then [s] else [s[..n]] + Pieces(s[n + 1..])
  }

  /** The pieces that become lines: an empty last one does so only behind a line of more than one
      character. */
  function Shown(pieces: seq<string>): seq<string>
    requires pieces != []
  {
    var n := |pieces| - 1;
    if pieces[n] == "" && (n == 0 || |pieces[n - 1]| <= 1) then pieces[..n] else pieces
  }

  function Contents(lines: seq<Line>): seq<string> {
    seq(|lines|, i requires 0 <= i < |lines| => if lines[i].Line? then lines[i].content else Notice())
  }

  predicate Fits(pieces: seq<string>, room: int) { forall p <- pieces :: |p| <= room }

  lemma FirstPiece(s: string)
    ensures var n := FirstOf('\n', s);
            && Pieces(s)[0] == s[..n]
            && (n < |s| ==> Pieces(s) == [s[..n]] + Pieces(s[n + 1..]))
            && (n == |s| ==> Pieces(s) == [s])
  {
    assert s[..|s|] == s;
  }

  /** Whether the newline behind the first piece is dropped with it. */
  predicate DropsNewline(s: string, n: nat) { n <= 1 || |s| - n != 1 }

  /** A piece that fits is one line. */
  lemma FittingCut(s: string, indent: nat, room: nat)
    requires s != "" && room >= 2 && FirstOf('\n', s) <= room
    ensures var n, l := FirstOf('\n', s), Cut(s, indent, room);
            && l.content == s[..n] && (n < |s| ==> l.ending.NewlineFollows?)
            && Behind(s, l) == (if n == |s| then "" else if DropsNewline(s, n) then s[n + 1..] else "\n")
  {
    hide *;
    var n := FirstOf('\n', s);
    FittingReach(s, room);
    CutAtReach(s, indent, room);
    if n == |s| {
      BehindIs(s, Cut(s, indent, room), n, 0);
      assert s[..n] == s && s[n..] == "";
    } else {
      BehindIs(s, Cut(s, indent, room), n, if DropsNewline(s, n) then 1 else 0);
      LastNewline(s, n);
    }
  }

  lemma CutAtReach(s: string, indent: nat, room: nat)
    requires s != "" && room >= 2
    ensures var w := Reach(s, room);
            && (w == |s| ==> Cut(s, indent, room) == Line(indent, s, TextEnds, ""))
            && (w < |s| && s[w] == '\n' ==>
                  Cut(s, indent, room) == Line(indent, s[..w], NewlineFollows, if DropsNewline(s, w) then "\n" else ""))
  {
    hide Reach, LastWrappable;
  }

  lemma BehindIs(s: string, l: Line, n: nat, m: nat)
    requires l.Line? && n + m <= |s| && |l.content| == n && |l.separator| == m
    ensures Behind(s, l) == s[n + m..]
  {
  }

  lemma FittingReach(s: string, room: nat)
    requires FirstOf('\n', s) <= room
    ensures Reach(s, room) == FirstOf('\n', s)
  {
    hide FirstOf;
  }

  lemma LastNewline(s: string, n: nat)
    requires n < |s| && s[n] == '\n'
    ensures !DropsNewline(s, n) ==> s[n..] == "\n"
  {
  }

  lemma ContentsFirst(l: Line, later: seq<Line>)
    requires l.Line?
    ensures Contents([l] + later) == [l.content] + Contents(later)
  {
  }

  lemma ShownFirst(p: string, later: seq<string>)
    requires later != []
    ensures Shown([p] + later) == if later == [""] then (if |p| <= 1 then [p] else [p, ""]) else [p] + Shown(later)
  {
    var all := [p] + later;
    var n := |later|;
    assert all[n] == later[n - 1];
    assert n >= 2 ==> all[n - 1] == later[n - 2] && all[..n] == [p] + later[..n - 1];
  }

  lemma PiecesOfNothing()
    ensures Pieces("") == [""] && Shown([""]) == []
    ensures Pieces("\n") == ["", ""]
  {
    FirstPiece("");
    FirstPiece("\n");
    assert "\n"[..0] == "" && "\n"[1..] == "";
  }

  lemma {:induction false} OnlyNothingIsOnePiece(s: string)
    ensures Pieces(s) == [""] <==> s == ""
  {
    FirstPiece(s);
    PiecesOfNothing();
  }

  /** One turn of the loop on a text whose first piece fits. */
  lemma FittingStep(attr: TextAttributes, s: string, indent: nat, count: nat)
    requires attr.Roomy() && indent + 2 <= attr.width && s != "" && count + 1 < MAX_LINES
    requires FirstOf('\n', s) + indent <= attr.width
    ensures var n, lines := FirstOf('\n', s), Contents(WrapFrom(attr, s, indent, count));
            if n == |s| then lines == [s]
            else if DropsNewline(s, n) then lines == [s[..n]] + Contents(WrapFrom(attr, s[n + 1..], attr.indent, count + 1))
            else lines == [s[..n]] + [""]
  {
    var n, l := FirstOf('\n', s), Cut(s, indent, attr.width - indent);
    var next := NextIndent(attr, l, indent, count);
    FittingCut(s, indent, attr.width - indent);
    WrapStep(attr, s, indent, count);
    hide Cut, WrapFrom, FirstOf, Behind, Contents, NextIndent, DropsNewline;
    ContentsFirst(l, WrapFrom(attr, Behind(s, l), next, count + 1));
    if n == |s| {
      NothingLeft(attr, next, count + 1);
      NoContents();
      assert s[..n] == s && [s] + [] == [s];
    } else {
      NextIsNormal(attr, l, indent, count);
      if !DropsNewline(s, n) {
        NewlineLine(attr, count + 1);
      }
    }
  }

  lemma LastPieceIs(s: string, n: nat)
    requires n < |s| && !DropsNewline(s, n)
    ensures s[n + 1..] == "" && |s[..n]| > 1 && [s[..n]] + [""] == [s[..n], ""]
  {
  }

  lemma {:induction false} FittingLines(attr: TextAttributes, s: string, indent: nat, count: nat)
    requires attr.Roomy() && indent + 2 <= attr.width && count + |Pieces(s)| < MAX_LINES
    requires Fits(Pieces(s), attr.width - indent) && Fits(Pieces(s), attr.width - attr.indent)
    ensures Contents(WrapFrom(attr, s, indent, count)) == Shown(Pieces(s))
    decreases |s|
  {
    hide *;
    IndentLeavesRoom(attr);
    FirstPiece(s);
    PiecesOfNothing();
    if s == "" {
      NothingLeft(attr, indent, count);
      NoContents();
    } else {
      var n := FirstOf('\n', s);
      FirstFits(Pieces(s), attr.width - indent);
      FittingStep(attr, s, indent, count);
      if n == |s| {
        OnePiece(s, n);
      } else {
        var p, rest := s[..n], s[n + 1..];
        ShownFirst(p, Pieces(rest));
        OnlyNothingIsOnePiece(rest);
        if DropsNewline(s, n) {
          FitsBehind(p, Pieces(rest), attr.width - attr.indent);
          FittingLines(attr, rest, attr.indent, count + 1);
          DroppedIsShort(s, n);
        } else {
          LastPieceIs(s, n);
        }
      }
    }
  }

  lemma IndentLeavesRoom(attr: TextAttributes)
    requires attr.Roomy()
    ensures attr.indent + 2 <= attr.width
  {
  }

  lemma DroppedIsShort(s: string, n: nat)
    requires n < |s| && DropsNewline(s, n)
    ensures s[n + 1..] == "" ==> |s[..n]| <= 1
    ensures [s[..n]] + [] == [s[..n]]
  {
    assert |s[n + 1..]| == |s| - n - 1;
  }

  lemma FirstFits(pieces: seq<string>, room: int)
    requires pieces != [] && Fits(pieces, room)
    ensures |pieces[0]| <= room
  {
    assert pieces[0] in pieces;
  }

  lemma NoContents()
    ensures Contents([]) == []
  {
  }

  lemma NextIsNormal(attr: TextAttributes, l: Line, indent: nat, count: nat)
    requires l.Line? && l.ending.NewlineFollows?
    ensures NextIndent(attr, l, indent, count) == attr.indent
  {
  }

  lemma FitsBehind(p: string, later: seq<string>, room: int)
    requires Fits([p] + later, room)
    ensures Fits(later, room)
  {
    assert forall q <- later :: q in [p] + later;
  }

  lemma OnePiece(s: string, n: nat)
    requires s != "" && n == |s|
    ensures Shown([s]) == [s] && s[..n] == s
  {
  }

  /** A newline on its own is one empty line. */
  lemma NewlineLine(attr: TextAttributes, count: nat)
    requires attr.Roomy() && count < MAX_LINES
    ensures Contents(WrapFrom(attr, "\n", attr.indent, count)) == [""]
  {
    var room := attr.width - attr.indent;
    assert FirstOf('\n', "\n") == 0;
    FittingCut("\n", attr.indent, room);
    WrapStep(attr, "\n", attr.indent, count);
    var l := Cut("\n", attr.indent, room);
    var next := NextIndent(attr, l, attr.indent, count);
    hide Cut, NextIndent, WrapFrom, Contents;
    assert Behind("\n", l) == "";
    NothingLeft(attr, next, count + 1);
    ContentsFirst(l, []);
    NoContents();
  }

  /** A text whose pieces between newlines all fit is shown piece by piece, nothing broken: an
      empty last piece is a line only behind a line of more than one character. */
  lemma FittingText(str: string, attr: TextAttributes)
    requires attr.Roomy() && |Pieces(str)| < 1000
    requires Fits(Pieces(str), attr.width - attr.FirstIndent()) && Fits(Pieces(str), attr.width - attr.indent)
    ensures Contents(Wrapped(str, attr)) == Shown(Pieces(str))
  {
    FittingLines(attr, str, attr.FirstIndent(), 0);
  }

  // ----- the wrapper -----

  class Text {
    var lines: seq<string>

    constructor (str: string, attr: TextAttributes)
      requires attr.Roomy() && attr.tabChar !in str
      ensures lines == RenderedAll(Wrapped(str, attr))
    {
      lines := [];
      new;
      hide WrapFrom, Cut, NextIndent, Behind;
      var indent: nat := attr.FirstIndent();
      var remainder := str;
      while remainder != ""
        invariant indent + 2 <= attr.width
        invariant RenderedAll(Wrapped(str, attr)) == lines + RenderedAll(WrapFrom(attr, remainder, indent, |lines|))
        decreases |remainder|
      {
        Unfolded(attr, remainder, indent, lines);
        if |lines| >= MAX_LINES {
          lines := lines + [Notice()];
          return;
        }
        remainder, indent := NextLine(attr, remainder, indent);
      }
      NothingLeft(attr, indent, |lines|);
    }

    /** One turn of the loop: the next line, and the indent of the one after it. */
    method NextLine(attr: TextAttributes, remainder: string, indent: nat) returns (rest: string, next: nat)
      requires attr.Roomy() && indent + 2 <= attr.width && remainder != ""
      modifies this
      ensures var l := Cut(remainder, indent, attr.width - indent);
              && lines == old(lines) + [Rendered(l)]
              && rest == Behind(remainder, l)
              && next == NextIndent(attr, l, indent, |old(lines)|)
      ensures |rest| < |remainder| && next + 2 <= attr.width
    {
      hide FirstOf, LastWrappable, Spaces, Cut, Rendered, Behind;
      rest, next := remainder, indent;
      var width := Min(|rest|, attr.width - indent);
      var pos := FirstOf('\n', rest);
      if pos < |rest| && pos <= width {
        width := pos;
      }
      assert width == Reach(remainder, attr.width - indent);
      hide Reach;
      CutInText(remainder, indent, attr.width - indent);
      if width == |rest| {
        rest := SpliceLine(indent, rest, width);
      } else if rest[width] == '\n' {
        rest := SpliceLine(indent, rest, width);
        if width <= 1 || |rest| != 1 {
          rest := rest[1..];
        }
        next := attr.indent;
      } else {
        rest := BreakLine(rest, indent, width);
        if |lines| == 1 {
          next := attr.indent;
        }
      }
    }

    /** Breaks a line that is too long: before a wrappable character, or within a word. */
    method BreakLine(remainder: string, indent: nat, width: nat) returns (rest: string)
      requires 2 <= width < |remainder|
      modifies this
      ensures var pos := LastWrappable(remainder, width);
              if pos > 0 then
                lines == old(lines) + [Spaces(indent) + remainder[..pos]]
                && rest == remainder[pos + (if remainder[pos] == ' ' then 1 else 0)..]
              else
                lines == old(lines) + [Spaces(indent) + remainder[..width - 1] + "-"]
                && rest == remainder[width - 1..]
    {
      var at := LastWrappable(remainder, width);
      if at > 0 {
        rest := SpliceLine(indent, remainder, at);
        if rest[0] == ' ' {
          rest := rest[1..];
        }
      } else {
        rest := SpliceLine(indent, remainder, width - 1);
        lines := lines[..|lines| - 1] + [lines[|lines| - 1] + "-"];
      }
    }

    method SpliceLine(indent: nat, remainder: string, pos: nat) returns (rest: string)
      requires pos <= |remainder|
      modifies this
      ensures lines == old(lines) + [Spaces(indent) + remainder[..pos]] && rest == remainder[pos..]
    {
      lines := lines + [Spaces(indent) + remainder[..pos]];
      rest := remainder[pos..];
    }
  }

  /** A cut, by the text in front of it and behind it. */
  lemma CutInText(s: string, indent: nat, room: nat)
    requires s != "" && room >= 2
    ensures var l := Cut(s, indent, room);
            var w := Reach(s, room);
            && |Behind(s, l)| < |s|
            && (if w == |s| then
                  l.ending.TextEnds? && Rendered(l) == Spaces(indent) + s[..w] && Behind(s, l) == s[w..]
                else if s[w] == '\n' then
                  && l.ending.NewlineFollows? && Rendered(l) == Spaces(indent) + s[..w]
                  && Behind(s, l) == if w <= 1 || |s[w..]| != 1 then s[w..][1..] else s[w..]
                else
                  var pos := LastWrappable(s, w);
                  if pos > 0 then
                    && l.ending.BreakFollows? && Rendered(l) == Spaces(indent) + s[..pos]
                    && Behind(s, l) == s[pos + (if s[pos] == ' ' then 1 else 0)..]
                  else
                    && l.ending.Hyphenated? && Rendered(l) == Spaces(indent) + s[..w - 1] + "-"
                    && Behind(s, l) == s[w - 1..])
  {
    hide LastWrappable, Spaces, FirstOf;
    var l := Cut(s, indent, room);
    var w := Reach(s, room);
    assert w == |s| || s[w] == '\n' || w == room;
    hide Reach;
    Plain(indent, l.content);
    if w == |s| {
      assert s[..w] == s;
    } else if s[w] == '\n' {
      assert s[w..][1..] == s[w + 1..];
    } else {
      assert l.ending.BreakFollows? || l.ending.Hyphenated?;
    }
  }

  lemma Plain(indent: nat, content: string)
    ensures Spaces(indent) + content + "" == Spaces(indent) + content
  {
  }

  lemma NothingLeft(attr: TextAttributes, indent: nat, count: nat)
    requires attr.Roomy() && indent + 2 <= attr.width
    ensures WrapFrom(attr, "", indent, count) == [] && RenderedAll([]) == []
  {
  }

  lemma WrapStep(attr: TextAttributes, s: string, indent: nat, count: nat)
    requires attr.Roomy() && indent + 2 <= attr.width && s != ""
    ensures WrapFrom(attr, s, indent, count) ==
              if count >= MAX_LINES then [Truncation]
              else
                var l := Cut(s, indent, attr.width - indent);
                [l] + WrapFrom(attr, Behind(s, l), NextIndent(attr, l, indent, count), count + 1)
  {
    hide Cut, NextIndent;
  }

  lemma RenderedFirst(before: seq<string>, l: Line, later: seq<Line>)
    ensures before + RenderedAll([l] + later) == before + [Rendered(l)] + RenderedAll(later)
  {
    assert RenderedAll([l] + later) == [Rendered(l)] + RenderedAll(later);
  }

  /** One turn of the loop, as the lines see it. */
  lemma Unfolded(attr: TextAttributes, s: string, indent: nat, before: seq<string>)
    requires attr.Roomy() && indent + 2 <= attr.width && s != ""
    ensures |before| >= MAX_LINES ==> before + RenderedAll(WrapFrom(attr, s, indent, |before|)) == before + [Notice()]
    ensures |before| < MAX_LINES ==>
              var l := Cut(s, indent, attr.width - indent);
              before + RenderedAll(WrapFrom(attr, s, indent, |before|)) ==
              before + [Rendered(l)] + RenderedAll(WrapFrom(attr, Behind(s, l), NextIndent(attr, l, indent, |before|), |before| + 1))
  {
    WrapStep(attr, s, indent, |before|);
    hide *;
    if |before| < MAX_LINES {
      var l := Cut(s, indent, attr.width - indent);
      RenderedFirst(before, l, WrapFrom(attr, Behind(s, l), NextIndent(attr, l, indent, |before|), |before| + 1));
    } else {
      RenderedTruncation();
    }
  }

  lemma RenderedTruncation()
    ensures RenderedAll([Truncation]) == [Notice()]
  {
  }
}
