/** Escaping text for XML, and reading it back. */
module XmlEncode {
  import opened Options
  import opened Strings

  datatype ForWhat = ForTextNodes | ForAttributes

  function HexDigit(d: nat): char
    requires d < 16
  {
    if d < 10 then '0' + d as char else 'A' + (d - 10) as char
  }

  /** Characters are bytes, and compared as signed ones: from 0x80 on they are negative. */
  predicate IsControl(c: char) {
    c < '\t' || ('\r' < c < ' ') || c as int == 0x7F || 0x80 <= c as int < 0x100
  }

  /** A character reference of two upper-case hexadecimal digits. A negative byte is printed as the
      32-bit number it is converted to. */
  function HexReference(c: char): string
    requires c as int < 0x100
  {
    "&#x" + (if c as int < 0x80 then "" else "FFFFFF") + [HexDigit(c as int / 16), HexDigit(c as int % 16)] + ";"
  }

  predicate Bytes(s: string) { forall c <- s :: c as int < 0x100 }

  predicate SevenBit(s: string) { forall c <- s :: c as int < 0x80 }

  /** The character at position i of a text, escaped. */
  function EncodedChar(s: string, i: nat, forWhat: ForWhat): string
    requires i < |s|
  {
    var c := s[i];
    if c == '<' then "&lt;"
    else if c == '&' then "&amp;"
    else if c == '>' then (if i > 2 && s[i - 1] == ']' && s[i - 2] == ']' then "&gt;" else ">")
    else if c == '"' then (if forWhat.ForAttributes? then "&quot;" else "\"")
    else if IsControl(c) then HexReference(c)
    else [c]
  }

  function EncodedFrom(s: string, i: nat, forWhat: ForWhat): string
    requires i <= |s|
    decreases |s| - i
  {
    if i == |s| then "" else EncodedChar(s, i, forWhat) + EncodedFrom(s, i + 1, forWhat)
  }

  function Encoded(s: string, forWhat: ForWhat): string {
    EncodedFrom(s, 0, forWhat)
  }

  method EncodeTo(os: string, s: string, forWhat: ForWhat) returns (out: string)
    requires Bytes(s)
    ensures out == os + Encoded(s, forWhat)
  {
    out := os;
    var i := 0;
    assert os + Encoded(s, forWhat) == out + EncodedFrom(s, 0, forWhat);
    while i < |s|
      invariant 0 <= i <= |s|
      invariant os + Encoded(s, forWhat) == out + EncodedFrom(s, i, forWhat)
    {
      AppendIsAssociative(out, EncodedChar(s, i, forWhat), EncodedFrom(s, i + 1, forWhat));
      out := out + EncodedChar(s, i, forWhat);
      i := i + 1;
    }
  }

  // ----- reading back -----

  function HexValue(c: char): Option<nat> {
    if '0' <= c <= '9' then Some((c - '0') as nat)
    else if 'A' <= c <= 'F' then Some((c - 'A') as nat + 10)
    else None
  }

  /** What a reference stands for, by what is between "&" and ";". */
  function Referenced(name: string): Option<char> {
    if name == "lt" then Some('<')
    else if name == "gt" then Some('>')
    else if name == "amp" then Some('&')
    else if name == "quot" then Some('"')
    else if |name| == 4 && name[0] == '#' && name[1] == 'x' then
      var h, l := HexValue(name[2]), HexValue(name[3]);
      if h.Some? && l.Some? then Some((16 * h.value + l.value) as char) else None
    else None
  }

  /** The text with its references resolved; None if an "&" does not start one. */
  function Decoded(s: string): Option<string>
    decreases |s|
  {
    if s == "" then Some("")
    else if s[0] != '&' then
      var rest := Decoded(s[1..]);
      if rest.Some? then Some([s[0]] + rest.value) else None
    else
      var n := FirstOf(';', s);
      if n == |s| then None
      else
        var c := Referenced(s[1..n]);
        var rest := Decoded(s[n + 1..]);
        if c.Some? && rest.Some? then Some([c.value] + rest.value) else None
  }

  lemma ReferenceDecoded(name: string, c: char, rest: string)
    requires ';' !in name && Referenced(name) == Some(c)
    ensures Decoded("&" + name + ";" + rest) == if Decoded(rest).Some? then Some([c] + Decoded(rest).value) else Option.None
  {
    var s := "&" + name + ";" + rest;
    FirstOfBehind(';', "&" + name, rest);
    assert s[1..|name| + 1] == name && s[|name| + 2..] == rest;
  }

  lemma HexDecoded(c: char)
    requires c as int < 0x80
    ensures var name := HexReference(c)[1..5];
            HexReference(c) == "&" + name + ";" && ';' !in name && Referenced(name) == Some(c)
  {
    var h, l := c as int / 16, c as int % 16;
    var name := HexReference(c)[1..5];
    assert name == ['#', 'x', HexDigit(h), HexDigit(l)];
    assert HexValue(HexDigit(h)) == Some(h) && HexValue(HexDigit(l)) == Some(l);
    assert 16 * h + l == c as int;
  }

  /** The reference written for a negative byte stands for no character. */
  lemma NegativeByteIsLost(c: char, rest: string)
    requires 0x80 <= c as int < 0x100
    ensures Decoded(HexReference(c) + rest) == Option.None
  {
    var name := ['#', 'x', 'F', 'F', 'F', 'F', 'F', 'F', HexDigit(c as int / 16), HexDigit(c as int % 16)];
    var s := HexReference(c) + rest;
    assert s == ("&" + name) + [';'] + rest;
    FirstOfBehind(';', "&" + name, rest);
    assert s[1..|name| + 1] == name;
  }

  lemma CharDecoded(s: string, i: nat, forWhat: ForWhat, rest: string)
    requires i < |s| && s[i] as int < 0x80
    ensures Decoded(EncodedChar(s, i, forWhat) + rest) ==
              if Decoded(rest).Some? then Some([s[i]] + Decoded(rest).value) else Option.None
  {
    var e, c := EncodedChar(s, i, forWhat), s[i];
    if e == [c] && c != '&' {
      assert ([c] + rest)[1..] == rest;
    } else {
      var name := NameOf(s, i, forWhat);
      ReferenceDecoded(name, c, rest);
    }
  }

  /** An escaped character is a reference to it. */
  lemma NameOf(s: string, i: nat, forWhat: ForWhat) returns (name: string)
    requires i < |s| && s[i] as int < 0x80 && (EncodedChar(s, i, forWhat) != [s[i]] || s[i] == '&')
    ensures EncodedChar(s, i, forWhat) == "&" + name + ";" && ';' !in name && Referenced(name) == Some(s[i])
  {
    match s[i]
    case '<' => name := "lt"; assert "&lt;" == "&" + name + ";";
    case '&' => name := "amp"; assert "&amp;" == "&" + name + ";";
    case '>' => name := "gt"; assert "&gt;" == "&" + name + ";";
    case '"' => name := "quot"; assert "&quot;" == "&" + name + ";";
    case _ =>
      HexDecoded(s[i]);
      name := HexReference(s[i])[1..5];
  }

  lemma DecodedNothing()
    ensures Decoded("") == Some("")
  {
  }

  lemma {:induction false} FromDecoded(s: string, i: nat, forWhat: ForWhat)
    requires i <= |s| && Bytes(s)
    ensures Decoded(EncodedFrom(s, i, forWhat)) == if SevenBit(s[i..]) then Some(s[i..]) else Option.None
    decreases |s| - i
  {
    hide Decoded, EncodedChar;
    if i == |s| {
      assert s[i..] == "";
      DecodedNothing();
    } else {
      FromDecoded(s, i + 1, forWhat);
      assert s[i..] == [s[i]] + s[i + 1..] && s[i] in s;
      if s[i] as int < 0x80 {
        CharDecoded(s, i, forWhat, EncodedFrom(s, i + 1, forWhat));
        SevenBitFrom(s[i], s[i + 1..]);
      } else {
        assert s[i] in s[i..];
        NegativeByteEncoded(s, i, forWhat);
        NegativeByteIsLost(s[i], EncodedFrom(s, i + 1, forWhat));
      }
    }
  }

  lemma SevenBitFrom(c: char, rest: string)
    ensures SevenBit([c] + rest) <==> c as int < 0x80 && SevenBit(rest)
  {
    var s := [c] + rest;
    assert c in s && forall d <- rest :: d in s;
  }

  lemma NegativeByteEncoded(s: string, i: nat, forWhat: ForWhat)
    requires i < |s| && 0x80 <= s[i] as int < 0x100
    ensures EncodedChar(s, i, forWhat) == HexReference(s[i])
  {
  }

  /** What is escaped reads back as it was, every "&" in the result starting a reference, if and
      only if it is 7-bit; for any other text the result holds a reference to no character. */
  lemma EncodingRoundTrip(s: string, forWhat: ForWhat)
    requires Bytes(s)
    ensures Decoded(Encoded(s, forWhat)) == if SevenBit(s) then Some(s) else Option.None
  {
    FromDecoded(s, 0, forWhat);
    assert s[0..] == s;
  }

  lemma CharIsSafe(s: string, i: nat, forWhat: ForWhat)
    requires i < |s|
    ensures '<' !in EncodedChar(s, i, forWhat)
    ensures forWhat.ForAttributes? ==> '"' !in EncodedChar(s, i, forWhat)
  {
    if IsControl(s[i]) {
      var digits := [HexDigit(s[i] as int / 16), HexDigit(s[i] as int % 16)];
      assert forall c <- digits :: c == digits[0] || c == digits[1];
    }
  }

  lemma {:induction false} FromIsSafe(s: string, i: nat, forWhat: ForWhat)
    requires i <= |s|
    ensures '<' !in EncodedFrom(s, i, forWhat)
    ensures forWhat.ForAttributes? ==> '"' !in EncodedFrom(s, i, forWhat)
    decreases |s| - i
  {
    if i == |s| {
    } else {
      CharIsSafe(s, i, forWhat);
      FromIsSafe(s, i + 1, forWhat);
      hide EncodedChar;
    }
  }

  /** No raw "<" is left, and in attributes no raw quote. */
  lemma EncodingIsSafe(s: string, forWhat: ForWhat)
    requires Bytes(s)
    ensures '<' !in Encoded(s, forWhat)
    ensures forWhat.ForAttributes? ==> '"' !in Encoded(s, forWhat)
  {
    FromIsSafe(s, 0, forWhat);
  }

  /** Printable characters of 7 bits, and those from tab to carriage return. */
  predicate IsPlain(c: char) { '\t' <= c <= '\r' || ' ' <= c <= '~' }

  lemma CharIsPlain(s: string, i: nat, forWhat: ForWhat)
    requires i < |s| && s[i] as int < 0x100
    ensures forall c <- EncodedChar(s, i, forWhat) :: IsPlain(c)
  {
    if IsControl(s[i]) {
      var digits := [HexDigit(s[i] as int / 16), HexDigit(s[i] as int % 16)];
      assert forall c <- digits :: c == digits[0] || c == digits[1];
    }
  }

  lemma {:induction false} FromIsPlain(s: string, i: nat, forWhat: ForWhat)
    requires i <= |s| && Bytes(s)
    ensures forall c <- EncodedFrom(s, i, forWhat) :: IsPlain(c)
    decreases |s| - i
  {
    if i == |s| {
    } else {
      assert s[i] in s;
      CharIsPlain(s, i, forWhat);
      FromIsPlain(s, i + 1, forWhat);
      hide EncodedChar, IsPlain, Bytes;
    }
  }

  /** Whatever the text, nothing else is left in the result. */
  lemma EncodingIsPlain(s: string, forWhat: ForWhat)
    requires Bytes(s)
    ensures forall c <- Encoded(s, forWhat) :: '\t' <= c <= '\r' || ' ' <= c <= '~'
  {
    FromIsPlain(s, 0, forWhat);
  }

  predicate NeedsNoEscape(c: char, s: string, forWhat: ForWhat) {
    c != '<' && c != '&' && (c == '"' ==> forWhat.ForTextNodes?) && (c == '>' ==> ']' !in s)
  }

  lemma {:induction false} PlainFromUnchanged(s: string, i: nat, forWhat: ForWhat)
    requires i <= |s| && forall c <- s :: IsPlain(c) && NeedsNoEscape(c, s, forWhat)
    ensures EncodedFrom(s, i, forWhat) == s[i..]
    decreases |s| - i
  {
    if i == |s| {
    } else {
      assert s[i] in s;
      PlainFromUnchanged(s, i + 1, forWhat);
      assert [s[i]] + s[i + 1..] == s[i..];
    }
  }

  /** Text without markup that consists of these characters is written as it is; a quote stays as
      it is outside attributes, and ">" where there is no closing bracket. */
  lemma PlainTextUnchanged(s: string, forWhat: ForWhat)
    requires forall c <- s :: ('\t' <= c <= '\r' || ' ' <= c <= '~') && NeedsNoEscape(c, s, forWhat)
    ensures Encoded(s, forWhat) == s
  {
    PlainFromUnchanged(s, 0, forWhat);
    assert s[0..] == s;
  }

  // ----- the end of a CDATA section -----

  lemma BracketIsItself(s: string, i: nat, forWhat: ForWhat, k: nat)
    requires i < |s| && k < |EncodedChar(s, i, forWhat)| && EncodedChar(s, i, forWhat)[k] == ']'
    ensures s[i] == ']' && EncodedChar(s, i, forWhat) == "]"
  {
  }

  lemma BracketInFront(s: string, i: nat, forWhat: ForWhat)
    requires i <= |s| && EncodedFrom(s, i, forWhat) != "" && EncodedFrom(s, i, forWhat)[0] == ']'
    ensures i < |s| && s[i] == ']' && EncodedFrom(s, i, forWhat) == "]" + EncodedFrom(s, i + 1, forWhat)
  {
    BracketIsItself(s, i, forWhat, 0);
  }

  lemma FirstIsBracket(s: string, i: nat, forWhat: ForWhat, p: nat)
    requires i < |s| && p < |EncodedChar(s, i, forWhat)| && EncodedFrom(s, i, forWhat)[p] == ']'
    ensures p == 0
  {
    BracketIsItself(s, i, forWhat, p);
  }

  lemma GreaterInFront(s: string, i: nat, forWhat: ForWhat)
    requires i <= |s| && EncodedFrom(s, i, forWhat) != "" && EncodedFrom(s, i, forWhat)[0] == '>'
    ensures i < |s| && s[i] == '>' && !(i > 2 && s[i - 1] == ']' && s[i - 2] == ']')
  {
    assert EncodedChar(s, i, forWhat)[0] == '>';
  }

  lemma CdataEndAtHead(s: string, i: nat, forWhat: ForWhat, p: nat)
    requires i < |s| && p < |EncodedChar(s, i, forWhat)| && p + 2 < |EncodedFrom(s, i, forWhat)|
    requires var out := EncodedFrom(s, i, forWhat); out[p] == ']' && out[p + 1] == ']' && out[p + 2] == '>'
    ensures i == 0 && p == 0 && StartsWith(s, "]]>")
  {
    hide EncodedChar, EncodedFrom, IsControl, HexReference;
    FirstIsBracket(s, i, forWhat, p);
    BracketInFront(s, i, forWhat);
    BracketInFront(s, i + 1, forWhat);
    GreaterInFront(s, i + 2, forWhat);
    assert s[..3] == [s[0], s[1], s[2]];
  }

  lemma CdataEndAt(s: string, p: nat)
    ensures OccursAt(s, "]]>", p) <==> p + 2 < |s| && s[p] == ']' && s[p + 1] == ']' && s[p + 2] == '>'
  {
    if p + 2 < |s| {
      assert s[p..p + 3] == [s[p], s[p + 1], s[p + 2]];
    }
  }

  lemma {:induction false} CdataEndOnlyAtStart(s: string, i: nat, forWhat: ForWhat, p: nat)
    requires i <= |s| && OccursAt(EncodedFrom(s, i, forWhat), "]]>", p)
    ensures i == 0 && p == 0 && StartsWith(s, "]]>")
    decreases |s| - i
  {
    var out := EncodedFrom(s, i, forWhat);
    var e, rest := EncodedChar(s, i, forWhat), EncodedFrom(s, i + 1, forWhat);
    CdataEndAt(out, p);
    if p >= |e| {
      CdataEndAt(rest, p - |e|);
      hide OccursAt, StartsWith, EncodedChar;
      CdataEndOnlyAtStart(s, i + 1, forWhat, p - |e|);
    } else {
      CdataEndAtHead(s, i, forWhat, p);
    }
  }

  /** "]]>" is escaped everywhere but at the very start of a text, where the test `i > 2` misses
      it: it is in the result exactly if the text begins with it. */
  lemma CdataEndEscapedUnlessFirst(s: string, forWhat: ForWhat)
    requires Bytes(s)
    ensures Contains(Encoded(s, forWhat), "]]>") <==> StartsWith(s, "]]>")
  {
    var out := Encoded(s, forWhat);
    if Contains(out, "]]>") {
      var p: nat :| OccursAt(out, "]]>", p);
      CdataEndOnlyAtStart(s, 0, forWhat, p);
    }
    if StartsWith(s, "]]>") {
      assert s[0] == s[..3][0] && s[1] == s[..3][1] && s[2] == s[..3][2];
      assert out == "]" + EncodedFrom(s, 1, forWhat) && EncodedFrom(s, 1, forWhat) == "]" + EncodedFrom(s, 2, forWhat);
      assert EncodedFrom(s, 2, forWhat) == ">" + EncodedFrom(s, 3, forWhat);
      assert out[0..3] == "]]>";
      assert OccursAt(out, "]]>", 0);
    }
  }
}
