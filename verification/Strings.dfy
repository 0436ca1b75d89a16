/** String helpers: searching, prefixes, and replacing every occurrence of a substring. */
module Strings {

  function Min(a: nat, b: nat): nat { if a < b then a else b }

  function Max(a: nat, b: nat): nat { if a < b then b else a }

  /** The position of the first `c`, or the length. */
  function FirstOf(c: char, s: string): (n: nat)
    ensures n <= |s| && c !in s[..n] && (n < |s| ==> s[n] == c)
  {
    if s == "" || s[0] == c then 0
    else
      var n := 1 + FirstOf(c, s[1..]);
      assert s[..n] == [s[0]] + s[1..][..n - 1];
      n
  }

  lemma {:induction false} FirstOfBehind(c: char, s: string, rest: string)
    ensures FirstOf(c, s + [c] + rest) == FirstOf(c, s)
    ensures c !in s ==> FirstOf(c, s) == |s|
  {
    if s == "" || s[0] == c {
    } else {
      FirstOfBehind(c, s[1..], rest);
      assert (s + [c] + rest)[1..] == s[1..] + [c] + rest;
    }
  }

  predicate StartsWith(s: string, prefix: string) {
    |s| >= |prefix| && s[..|prefix|] == prefix
  }

  predicate EndsWith(s: string, suffix: string) {
    |s| >= |suffix| && s[|s| - |suffix|..] == suffix
  }

  predicate OccursAt(s: string, infix: string, i: nat) {
    i + |infix| <= |s| && s[i..i + |infix|] == infix
  }

  ghost predicate Contains(s: string, infix: string) {
    exists i: nat :: OccursAt(s, infix, i)
  }

  /** The first occurrence from a position on, or -1. */
  function Find(s: string, infix: string, from: nat): (i: int)
    ensures i == -1 || from <= i
    ensures i >= 0 ==> OccursAt(s, infix, i)
    ensures forall j: nat :: OccursAt(s, infix, j) && from <= j ==> i != -1 && i <= j
    decreases |s| - from
  {
    if from + |infix| > |s| then -1
    else if OccursAt(s, infix, from) then from
    else Find(s, infix, from + 1)
  }

  /** Searching behind a prefix is searching in what follows it. */
  lemma {:induction false} FindBehind(done: string, rest: string, infix: string, from: nat)
    ensures Find(done + rest, infix, |done| + from) ==
              if Find(rest, infix, from) < 0 then -1 else |done| + Find(rest, infix, from)
    decreases |rest| - from
  {
    var s := done + rest;
    if from + |infix| <= |rest| {
      assert s[|done| + from..|done| + from + |infix|] == rest[from..from + |infix|];
      if rest[from..from + |infix|] != infix {
        FindBehind(done, rest, infix, from + 1);
      }
    }
  }

  /** Every occurrence replaced, from the left, without looking again at what was put in. */
  function Replaced(s: string, target: string, replacement: string): string
    requires target != ""
    decreases |s|
  {
    var i := Find(s, target, 0);
    if i < 0 then s else s[..i] + replacement + Replaced(s[i + |target|..], target, replacement)
  }

  /** One replacement: it moves everything up to and including what was put in behind us. */
  lemma ReplaceOnce(str: string, i: nat, done: string, rest: string, target: string, replacement: string, done1: string, rest1: string)
    requires target != "" && str == done + rest && Find(rest, target, 0) >= 0 && i == |done| + Find(rest, target, 0)
    requires done1 == str[..i] + replacement && rest1 == rest[Find(rest, target, 0) + |target|..]
    ensures i + |target| <= |str|
    ensures str[..i] + replacement + str[i + |target|..] == done1 + rest1
    ensures done + Replaced(rest, target, replacement) == done1 + Replaced(rest1, target, replacement)
  {
    hide *;
    var j := Find(rest, target, 0);
    ReplacedFirst(rest, target, replacement);
    SlicesBehind(done, rest, j, j + |target|);
    var tail := Replaced(rest1, target, replacement);
    AppendIsAssociative(done, rest[..j], replacement);
    AppendIsAssociative(done, rest[..j] + replacement, tail);
  }

  lemma ReplacedFirst(s: string, target: string, replacement: string)
    requires target != "" && Find(s, target, 0) >= 0
    ensures var i := Find(s, target, 0);
            i + |target| <= |s| && Replaced(s, target, replacement) == s[..i] + replacement + Replaced(s[i + |target|..], target, replacement)
  {
    assert OccursAt(s, target, Find(s, target, 0));
  }

  lemma SlicesBehind(done: string, rest: string, j: nat, k: nat)
    requires j <= k <= |rest|
    ensures (done + rest)[..|done| + j] == done + rest[..j] && (done + rest)[|done| + k..] == rest[k..]
  {
  }

  lemma AppendIsAssociative<T>(a: seq<T>, b: seq<T>, c: seq<T>)
    ensures (a + b) + c == a + (b + c)
  {
  }

  /** Replaces in place: the string as it is left, and whether anything was replaced. */
  method ReplaceInPlace(s: string, replaceThis: string, withThis: string) returns (str: string, replaced: bool)
    requires replaceThis != ""
    ensures str == Replaced(s, replaceThis, withThis)
    ensures replaced <==> Contains(s, replaceThis)
  {
    str, replaced := s, false;
    var i := Find(str, replaceThis, 0);
    if i >= 0 {
      assert OccursAt(s, replaceThis, i);
    }
    ghost var done, rest := "", s;
    assert "" + s == s && "" + Replaced(s, replaceThis, withThis) == Replaced(s, replaceThis, withThis);
    while i != -1
      invariant str == done + rest
      invariant i == if Find(rest, replaceThis, 0) < 0 then -1 else |done| + Find(rest, replaceThis, 0)
      invariant Replaced(s, replaceThis, withThis) == done + Replaced(rest, replaceThis, withThis)
      invariant if replaced then Contains(s, replaceThis) else i != -1 <==> Contains(s, replaceThis)
      decreases |rest|
    {
      replaced := true;
      ghost var done1, rest1 := str[..i] + withThis, rest[Find(rest, replaceThis, 0) + |replaceThis|..];
      ReplaceOnce(str, i, done, rest, replaceThis, withThis, done1, rest1);
      str := str[..i] + withThis + str[i + |replaceThis|..];
      done, rest := done1, rest1;
      FindBehind(done, rest, replaceThis, 0);
      if i < |str| - |withThis| {
        i := Find(str, replaceThis, i + |withThis|);
      } else {
        i := -1;
      }
    }
  }

  // ----- what replacing means -----

  function Join(pieces: seq<string>, separator: string): string
    requires pieces != []
  {
    if |pieces| == 1 then pieces[0] else pieces[0] + separator + Join(pieces[1..], separator)
  }

  /** The text between the replaced occurrences. */
  function Pieces(s: string, separator: string): (pieces: seq<string>)
    requires separator != ""
    ensures pieces != []
    decreases |s|
  {
    var i := Find(s, separator, 0);
    if i < 0 then [s] else [s[..i]] + Pieces(s[i + |separator|..], separator)
  }

  lemma FirstPiece(s: string, target: string, replacement: string)
    requires target != "" && Find(s, target, 0) >= 0
    ensures var i := Find(s, target, 0);
            var rest := s[i + |target|..];
            && Pieces(s, target) == [s[..i]] + Pieces(rest, target)
            && Join(Pieces(s, target), target) == s[..i] + target + Join(Pieces(rest, target), target)
            && Join(Pieces(s, target), replacement) == s[..i] + replacement + Join(Pieces(rest, target), replacement)
            && Replaced(s, target, replacement) == s[..i] + replacement + Replaced(rest, target, replacement)
            && s == s[..i] + target + rest
  {
    hide *;
    var i := Find(s, target, 0);
    CutOut(s, target);
    var rest := s[i + |target|..];
    JoinFirst(s[..i], Pieces(rest, target), target);
    JoinFirst(s[..i], Pieces(rest, target), replacement);
    ReplacedFirst(s, target, replacement);
  }

  lemma CutOut(s: string, target: string)
    requires target != "" && Find(s, target, 0) >= 0
    ensures var i := Find(s, target, 0);
            && i + |target| <= |s| && s == s[..i] + target + s[i + |target|..]
            && Pieces(s, target) == [s[..i]] + Pieces(s[i + |target|..], target)
  {
    var i := Find(s, target, 0);
    assert OccursAt(s, target, i);
    assert s == s[..i] + s[i..i + |target|] + s[i + |target|..];
  }

  lemma JoinFirst(piece: string, pieces: seq<string>, separator: string)
    requires pieces != []
    ensures Join([piece] + pieces, separator) == piece + separator + Join(pieces, separator)
  {
    assert ([piece] + pieces)[1..] == pieces;
  }

  /** The string is its pieces joined by what is searched for, no piece contains that, and the
      result is the same pieces joined by the replacement. */
  lemma {:induction false} ReplacedJoinsPieces(s: string, target: string, replacement: string)
    requires target != ""
    ensures var pieces := Pieces(s, target);
            && Join(pieces, target) == s
            && Join(pieces, replacement) == Replaced(s, target, replacement)
            && forall k :: 0 <= k < |pieces| ==> !Contains(pieces[k], target)
    decreases |s|
  {
    var i := Find(s, target, 0);
    if i >= 0 {
      var rest := s[i + |target|..];
      ReplacedJoinsPieces(rest, target, replacement);
      NothingBeforeFirst(s, target);
      FirstPiece(s, target, replacement);
      hide *;
    }
  }

  lemma NothingBeforeFirst(s: string, infix: string)
    requires Find(s, infix, 0) >= 0 && infix != ""
    ensures !Contains(s[..Find(s, infix, 0)], infix)
  {
    var before := s[..Find(s, infix, 0)];
    forall j: nat | OccursAt(before, infix, j) ensures false {
      assert s[j..j + |infix|] == before[j..j + |infix|];
      assert OccursAt(s, infix, j);
    }
  }
}
