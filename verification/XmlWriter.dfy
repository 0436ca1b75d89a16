/** The XML writer, and a character-by-character reader of what it writes. */
module XmlWriter {
  import opened XmlEncode

  // ----- the reader -----

  /** Where the reader is: between tags, or inside some kind of markup. */
  datatype Place =
    | Content
    | Opened                      // behind "<"
    | Name(name: string)
    | Space                       // before an attribute
    | AttributeName
    | Equals
    | AttributeValue
    | ValueEnded
    | Slash                       // behind the "/" of an empty element
    | EndName(name: string)
    | Declaration                 // behind "<?"
    | Bang                        // behind "<!"
    | BangDash
    | Comment(dashes: nat)
    | Malformed

  /** The elements open, outermost first, without one whose name is still being read. */
  datatype Reader = Reader(open: seq<string>, place: Place)

  predicate IsNameChar(c: char) {
    && c != ' ' && c != '\n' && c != '\t' && c != '<' && c != '>' && c != '/'
    && c != '=' && c != '"' && c != '!' && c != '?' && c != '&'
  }

  function Close(open: seq<string>): Reader {
    if open == [] then Reader(open, Malformed) else Reader(open[..|open| - 1], Content)
  }

  function ReadChar(r: Reader, c: char): Reader {
    match r.place
    case Content => if c == '<' then r.(place := Opened) else r
    case Opened =>
      if c == '/' then r.(place := EndName(""))
      else if c == '?' then r.(place := Declaration)
      else if c == '!' then r.(place := Bang)
      else if IsNameChar(c) then r.(place := Name([c]))
      else r.(place := Malformed)
    case Name(name) =>
      if c == '>' then Reader(r.open + [name], Content)
      else if c == '/' then Reader(r.open + [name], Slash)
      else if c == ' ' then Reader(r.open + [name], Space)
      else if IsNameChar(c) then r.(place := Name(name + [c]))
      else r.(place := Malformed)
    case Space => if IsNameChar(c) then r.(place := AttributeName) else r.(place := Malformed)
    case AttributeName =>
      if c == '=' then r.(place := Equals)
      else if IsNameChar(c) then r
      else r.(place := Malformed)
    case Equals => if c == '"' then r.(place := AttributeValue) else r.(place := Malformed)
    case AttributeValue =>
      if c == '"' then r.(place := ValueEnded)
      else if c == '<' then r.(place := Malformed)
      else r
    case ValueEnded =>
      if c == ' ' then r.(place := Space)
      else if c == '>' then r.(place := Content)
      else if c == '/' then r.(place := Slash)
      else r.(place := Malformed)
    case Slash => if c == '>' then Close(r.open) else r.(place := Malformed)
    case EndName(name) =>
      if c == '>' then
        if r.open != [] && r.open[|r.open| - 1] == name then Close(r.open) else r.(place := Malformed)
      else if IsNameChar(c) then r.(place := EndName(name + [c]))
      else r.(place := Malformed)
    case Declaration => if c == '>' then r.(place := Content) else r
    case Bang => if c == '-' then r.(place := BangDash) else r.(place := Malformed)
    case BangDash => if c == '-' then r.(place := Comment(0)) else r.(place := Malformed)
    case Comment(dashes) =>
      if c == '-' then r.(place := Comment(dashes + 1))
      else if c == '>' && dashes >= 2 then r.(place := Content)
      else if dashes >= 2 then r.(place := Malformed)
      else r.(place := Comment(0))
    case Malformed => r
  }

  function ReadAll(r: Reader, s: string): Reader
    decreases |s|
  {
    if s == "" then r else ReadAll(ReadChar(r, s[0]), s[1..])
  }

  /** What has been read of a whole document. */
  function Document(s: string): Reader {
    ReadAll(Reader([], Content), s)
  }

  /** All open elements, one whose tag is still open included. */
  function Elements(r: Reader): seq<string> {
    if r.place.Name? then r.open + [r.place.name] else r.open
  }

  /** Inside a start tag, where an attribute or the end of the tag may follow. */
  predicate InTag(r: Reader) { r.place.Name? || r.place.ValueEnded? }

  lemma {:induction false} ReadAppend(r: Reader, s: string, t: string)
    ensures ReadAll(r, s + t) == ReadAll(ReadAll(r, s), t)
    decreases |s|
  {
    hide ReadChar;
    if s == "" {
      assert s + t == t;
    } else {
      assert (s + t)[1..] == s[1..] + t;
      ReadAppend(ReadChar(r, s[0]), s[1..], t);
    }
  }

  /** A document that is well formed so far was so at every point before. */
  lemma {:induction false} PrefixIsWellFormed(s: string, k: nat)
    requires k <= |s| && !Document(s).place.Malformed?
    ensures !Document(s[..k]).place.Malformed?
  {
    ReadAppend(Reader([], Content), s[..k], s[k..]);
    assert s[..k] + s[k..] == s;
    if Document(s[..k]).place.Malformed? {
      MalformedForGood(Document(s[..k]), s[k..]);
    }
  }

  lemma {:induction false} MalformedForGood(r: Reader, s: string)
    requires r.place.Malformed?
    ensures ReadAll(r, s) == r
    decreases |s|
  {
    if s == "" {
    } else {
      MalformedForGood(ReadChar(r, s[0]), s[1..]);
    }
  }

  // ----- reading the pieces the writer emits -----

  lemma Read1(r: Reader, c: char)
    ensures ReadAll(r, [c]) == ReadChar(r, c)
  {
    hide ReadChar;
    assert [c][1..] == "";
  }

  lemma {:induction false} ContentRead(r: Reader, s: string)
    requires r.place.Content? && '<' !in s
    ensures ReadAll(r, s) == r
    decreases |s|
  {
    if s == "" {
    } else {
      ContentRead(r, s[1..]);
    }
  }

  predicate IsName(name: string) { name != "" && forall c <- name :: IsNameChar(c) }

  lemma {:induction false} NameRead(r: Reader, name: string)
    requires r.place.Name? && forall c <- name :: IsNameChar(c)
    ensures ReadAll(r, name) == r.(place := Name(r.place.name + name))
    decreases |name|
  {
    if name == "" {
      assert r.place.name + name == r.place.name;
    } else {
      NameRead(r.(place := Name(r.place.name + [name[0]])), name[1..]);
      assert r.place.name + [name[0]] + name[1..] == r.place.name + name;
    }
  }

  lemma StartTagRead(r: Reader, name: string)
    requires r.place.Content? && IsName(name)
    ensures ReadAll(r, "<" + name) == r.(place := Name(name))
  {
    ReadAppend(r, "<", name);
    Read1(r, '<');
    var r1 := r.(place := Opened);
    ReadAppend(r1, [name[0]], name[1..]);
    Read1(r1, name[0]);
    NameRead(r.(place := Name([name[0]])), name[1..]);
    assert [name[0]] + name[1..] == name;
  }

  lemma {:induction false} EndNameRead(r: Reader, name: string)
    requires r.place.EndName? && forall c <- name :: IsNameChar(c)
    ensures ReadAll(r, name) == r.(place := EndName(r.place.name + name))
    decreases |name|
  {
    if name == "" {
      assert r.place.name + name == r.place.name;
    } else {
      EndNameRead(r.(place := EndName(r.place.name + [name[0]])), name[1..]);
      assert r.place.name + [name[0]] + name[1..] == r.place.name + name;
    }
  }

  lemma EndTagRead(r: Reader, name: string)
    requires r.place.Content? && IsName(name) && r.open != [] && r.open[|r.open| - 1] == name
    ensures ReadAll(r, "</" + name + ">") == Reader(r.open[..|r.open| - 1], Content)
  {
    var r1 := r.(place := EndName(""));
    var r2 := r.(place := EndName(name));
    ReadAppend(r, "</" + name, ">");
    ReadAppend(r, "</", name);
    ReadAppend(r, "<", "/");
    Read1(r, '<');
    Read1(r.(place := Opened), '/');
    assert "<" + "/" == "</";
    EndNameRead(r1, name);
    assert "" + name == name;
    Read1(r2, '>');
  }

  lemma {:induction false} AttributeNameRead(r: Reader, name: string)
    requires r.place.AttributeName? && forall c <- name :: IsNameChar(c)
    ensures ReadAll(r, name) == r
    decreases |name|
  {
    if name == "" {
    } else {
      AttributeNameRead(r, name[1..]);
    }
  }

  lemma {:induction false} ValueRead(r: Reader, value: string)
    requires r.place.AttributeValue? && '"' !in value && '<' !in value
    ensures ReadAll(r, value) == r
    decreases |value|
  {
    if value == "" {
    } else {
      ValueRead(r, value[1..]);
    }
  }

  lemma AttributeRead(r: Reader, name: string, value: string)
    requires InTag(r) && IsName(name) && '"' !in value && '<' !in value
    ensures ReadAll(r, " " + name + "=\"" + value + "\"") == Reader(Elements(r), ValueEnded)
  {
    hide ReadAll;
    var r1, r2 := Reader(Elements(r), Space), Reader(Elements(r), AttributeName);
    var r3 := r2.(place := AttributeValue);
    ReadAppend(r, " " + name + "=\"" + value, "\"");
    ReadAppend(r, " " + name + "=\"", value);
    ReadAppend(r, " " + name, "=\"");
    ReadAppend(r, " ", name);
    Read1(r, ' ');
    ReadAppend(r1, [name[0]], name[1..]);
    assert [name[0]] + name[1..] == name;
    Read1(r1, name[0]);
    AttributeNameRead(r2, name[1..]);
    ReadAppend(r2, "=", "\"");
    assert "=" + "\"" == "=\"";
    Read1(r2, '=');
    Read1(r2.(place := Equals), '"');
    ValueRead(r3, value);
    Read1(r3, '"');
  }

  /** Text of a comment: no two dashes in a row, and none at its end. */
  predicate IsCommentText(s: string, afterDash: bool) {
    if s == "" then !afterDash
    else if s[0] == '-' then !afterDash && IsCommentText(s[1..], true)
    else IsCommentText(s[1..], false)
  }

  lemma {:induction false} CommentTextRead(r: Reader, s: string)
    requires r.place.Comment? && r.place.dashes <= 1 && IsCommentText(s, r.place.dashes == 1)
    ensures ReadAll(r, s) == r.(place := Comment(0))
    decreases |s|
  {
    if s == "" {
    } else {
      CommentTextRead(ReadChar(r, s[0]), s[1..]);
    }
  }

  lemma CommentRead(r: Reader, text: string)
    requires r.place.Content? && IsCommentText(text, false)
    ensures ReadAll(r, "<!--" + text + "-->") == r
  {
    var c := r.(place := Comment(0));
    ReadAppend(r, "<!--" + text, "-->");
    ReadAppend(r, "<!--", text);
    assert ReadAll(r, "<!--") == c by {
      assert "<!--"[1..] == "!--" && "!--"[1..] == "--" && "--"[1..] == "-" && "-"[1..] == "";
      Read1(r.(place := BangDash), '-');
      assert ReadAll(r.(place := Bang), "--") == c;
    }
    CommentTextRead(c, text);
    assert ReadAll(c, "-->") == r by {
      assert "-->"[1..] == "->" && "->"[1..] == ">" && ">"[1..] == "";
      Read1(r.(place := Comment(2)), '>');
      assert ReadAll(r.(place := Comment(1)), "->") == r;
    }
  }

  // ----- the writer -----

  function Header(): string { "<?" + HeaderText() + ">\n" }

  function Blanks(n: nat): string { seq(n, _ => ' ') }

  class XmlWriter {
    var tagIsOpen: bool
    var needsNewline: bool
    var tags: seq<string>
    var indent: string
    var os: string

    /** The indent is two per open element, and no newline is owed inside a start tag. */
    ghost predicate Valid()
      reads this
    {
      indent == Blanks(2 * |tags|) && (tagIsOpen ==> tags != [] && !needsNewline)
    }

    /** What has been written reads as a document whose open elements are `tags`; the reader is
        inside a start tag exactly while one is open. */
    ghost predicate WellFormed()
      reads this
    {
      && (if tagIsOpen then InTag(Document(os)) else Document(os).place.Content?)
      && Elements(Document(os)) == tags
      && (forall t <- tags :: IsName(t))
    }

    constructor ()
      ensures Valid() && WellFormed() && tags == [] && os == Header() && !tagIsOpen
    {
      hide Header, ReadAll;
      tagIsOpen, needsNewline, tags, indent := false, false, [], "";
      os := Header();
      new;
      HeaderRead();
    }

    method Emit(s: string)
      modifies this`os
      ensures os == old(os) + s && Document(os) == ReadAll(Document(old(os)), s)
    {
      ReadAppend(Reader([], Content), os, s);
      os := os + s;
    }

    method EnsureTagClosed()
      requires Valid()
      modifies this`os, this`tagIsOpen
      ensures Valid() && !tagIsOpen && os == old(os) + (if old(tagIsOpen) then ">\n" else "")
      ensures old(WellFormed()) ==> WellFormed()
    {
      if tagIsOpen {
        if WellFormed() {
          TagEndRead(Document(os));
        }
        Emit(">\n");
        tagIsOpen := false;
      }
    }

    method NewlineIfNecessary()
      requires Valid()
      modifies this`os, this`needsNewline
      ensures Valid() && !needsNewline && os == old(os) + (if old(needsNewline) then "\n" else "")
      ensures old(WellFormed()) ==> WellFormed()
    {
      if needsNewline {
        if WellFormed() {
          ContentRead(Document(os), "\n");
        }
        Emit("\n");
        needsNewline := false;
      }
    }

    /** Opens an element inside those open; the document stays well formed if the name is one. */
    method StartElement(name: string)
      requires Valid()
      modifies this
      ensures Valid() && tagIsOpen && tags == old(tags) + [name]
      ensures os == old(os) + (if old(tagIsOpen) then ">\n" else "") + (if old(needsNewline) then "\n" else "")
                    + old(indent) + ("<" + name)
      ensures old(WellFormed()) && IsName(name) ==> WellFormed()
    {
      EnsureTagClosed();
      NewlineIfNecessary();
      EmitContent(indent);
      OpenTag(name);
      indent := indent + "  ";
    }

    method OpenTag(name: string)
      requires !tagIsOpen
      modifies this`os, this`tags, this`tagIsOpen
      ensures tagIsOpen && tags == old(tags) + [name] && os == old(os) + ("<" + name)
      ensures old(WellFormed()) && IsName(name) ==> WellFormed()
    {
      if WellFormed() && IsName(name) {
        StartTagRead(Document(os), name);
      }
      Emit("<" + name);
      tags := tags + [name];
      tagIsOpen := true;
    }

    method EndElement()
      requires Valid() && tags != []
      modifies this
      ensures Valid() && !tagIsOpen && tags == old(tags[..|tags| - 1])
      ensures os == old(os) + (if old(needsNewline) then "\n" else "")
                    + (if old(tagIsOpen) then "/>\n" else indent + "</" + old(tags[|tags| - 1]) + ">\n")
      ensures old(WellFormed()) ==> WellFormed()
    {
      NewlineIfNecessary();
      indent := indent[..|indent| - 2];
      ghost var wellFormed := WellFormed();
      if tagIsOpen {
        if wellFormed {
          EmptyTagRead(Document(os));
        }
        Emit("/>\n");
        tagIsOpen := false;
      } else {
        if wellFormed {
          EndLineRead(Document(os), indent, tags[|tags| - 1]);
        }
        Emit(indent + "</" + tags[|tags| - 1] + ">\n");
      }
      tags := tags[..|tags| - 1];
    }

    /** An attribute of the element whose start tag is open; an empty one is left out. With no
        start tag open it would become text. */
    method WriteAttribute(name: string, attribute: string)
      requires Valid() && Bytes(attribute)
      modifies this`os
      ensures Valid()
      ensures os == old(os) + (if name != "" && attribute != ""
                               then " " + name + "=\"" + Encoded(attribute, ForAttributes) + "\"" else "")
      ensures old(WellFormed()) && (name != "" ==> IsName(name)) ==> WellFormed()
    {
      if name != "" && attribute != "" {
        EncodingIsSafe(attribute, ForAttributes);
        EmitAttribute(name, Encoded(attribute, ForAttributes));
      }
    }

    /** A boolean attribute is always written. */
    method WriteBoolAttribute(name: string, attribute: bool)
      requires Valid()
      modifies this`os
      ensures Valid() && os == old(os) + (" " + name + "=\"" + (if attribute then "true" else "false") + "\"")
      ensures old(WellFormed()) && IsName(name) ==> WellFormed()
    {
      EmitAttribute(name, if attribute then "true" else "false");
    }

    method EmitAttribute(name: string, value: string)
      requires '"' !in value && '<' !in value
      modifies this`os
      ensures os == old(os) + (" " + name + "=\"" + value + "\"")
      ensures old(WellFormed()) && IsName(name) ==> WellFormed()
    {
      ghost var text := " " + name + "=\"" + value + "\"";
      if WellFormed() && IsName(name) {
        if tagIsOpen {
          AttributeRead(Document(os), name, value);
        } else {
          AttributeIsText(name, value);
          ContentRead(Document(os), text);
        }
      }
      Emit(" " + name + "=\"" + value + "\"");
    }

    method WriteText(text: string, withIndent: bool)
      requires Valid() && Bytes(text)
      modifies this`os, this`tagIsOpen, this`needsNewline
      ensures Valid() && tags == old(tags)
      ensures text == "" ==> os == old(os)
      ensures text != "" ==>
                !tagIsOpen && needsNewline
                && os == old(os) + (if old(tagIsOpen) then ">\n" else "") + (if old(tagIsOpen) && withIndent then indent else "")
                         + Encoded(text, ForTextNodes)
      ensures old(WellFormed()) ==> WellFormed()
    {
      if text != "" {
        var tagWasOpen := tagIsOpen;
        EnsureTagClosed();
        if tagWasOpen && withIndent {
          EmitContent(indent);
        }
        EncodingIsSafe(text, ForTextNodes);
        EmitContent(Encoded(text, ForTextNodes));
        needsNewline := true;
      }
    }

    method EmitContent(s: string)
      requires '<' !in s && !tagIsOpen
      modifies this`os
      ensures os == old(os) + s && (old(WellFormed()) ==> WellFormed())
    {
      if WellFormed() {
        ContentRead(Document(os), s);
      }
      Emit(s);
    }

    /** A comment is well formed if its text is one that XML allows in a comment. */
    method WriteComment(text: string)
      requires Valid()
      modifies this`os, this`tagIsOpen, this`needsNewline
      ensures Valid() && !tagIsOpen && needsNewline && tags == old(tags)
      ensures os == old(os) + (if old(tagIsOpen) then ">\n" else "") + indent + ("<!--" + text + "-->")
      ensures old(WellFormed()) && IsCommentText(text, false) ==> WellFormed()
    {
      EnsureTagClosed();
      EmitContent(indent);
      if WellFormed() && IsCommentText(text, false) {
        CommentRead(Document(os), text);
      }
      Emit("<!--" + text + "-->");
      needsNewline := true;
    }

    method WriteBlankLine()
      requires Valid()
      modifies this`os, this`tagIsOpen
      ensures Valid() && !tagIsOpen && tags == old(tags)
      ensures os == old(os) + (if old(tagIsOpen) then ">\n" else "") + "\n"
      ensures old(WellFormed()) ==> WellFormed()
    {
      EnsureTagClosed();
      EmitContent("\n");
    }

    /** The destructor: ends every element still open, so that the document is balanced. */
    method Finish()
      requires Valid()
      modifies this
      ensures Valid() && tags == []
      ensures old(WellFormed()) ==> Document(os) == Reader([], Content)
    {
      while tags != []
        invariant Valid() && (old(WellFormed()) ==> WellFormed())
        decreases |tags|
      {
        EndElement();
      }
    }
  }

  /** Outside a tag, an attribute reads as text. */
  lemma AttributeIsText(name: string, value: string)
    requires IsName(name) && '<' !in value
    ensures '<' !in " " + name + "=\"" + value + "\""
  {
  }

  function HeaderText(): string { "xml version=\"1.1\" encoding=\"UTF-8\"?" }

  lemma HeaderRead()
    ensures Document(Header()) == Reader([], Content)
  {
    var r := Reader([], Content);
    var d := r.(place := Declaration);
    hide ReadAll, HeaderText, ReadChar;
    HeaderTextIsPlain();
    ReadAppend(r, "<?" + HeaderText(), ">\n");
    ReadAppend(r, "<?", HeaderText());
    DeclarationOpened(r);
    DeclarationRead(d, HeaderText());
    DeclarationClosed(d);
  }

  lemma HeaderTextIsPlain()
    ensures '>' !in HeaderText()
  {
  }

  lemma DeclarationClosed(r: Reader)
    requires r.place.Declaration?
    ensures ReadAll(r, ">\n") == r.(place := Content)
  {
    ReadAppend(r, ">", "\n");
    assert ">" + "\n" == ">\n";
    Read1(r, '>');
    Read1(r.(place := Content), '\n');
  }

  lemma DeclarationOpened(r: Reader)
    requires r.place.Content?
    ensures ReadAll(r, "<?") == r.(place := Declaration)
  {
    ReadAppend(r, "<", "?");
    assert "<" + "?" == "<?";
    Read1(r, '<');
    Read1(r.(place := Opened), '?');
  }

  lemma {:induction false} DeclarationRead(r: Reader, s: string)
    requires r.place.Declaration? && '>' !in s
    ensures ReadAll(r, s) == r
    decreases |s|
  {
    if s == "" {
    } else {
      DeclarationRead(r, s[1..]);
    }
  }

  lemma TagEndRead(r: Reader)
    requires InTag(r)
    ensures ReadAll(r, ">\n") == Reader(Elements(r), Content)
  {
    ReadAppend(r, ">", "\n");
    assert ">" + "\n" == ">\n";
    Read1(r, '>');
    Read1(Reader(Elements(r), Content), '\n');
  }

  lemma EmptyTagRead(r: Reader)
    requires InTag(r) && Elements(r) != []
    ensures ReadAll(r, "/>\n") == Reader(Elements(r)[..|Elements(r)| - 1], Content)
  {
    ReadAppend(r, "/", ">\n");
    assert "/" + ">\n" == "/>\n" && ">" + "\n" == ">\n";
    Read1(r, '/');
    var r1 := Reader(Elements(r), Slash);
    ReadAppend(r1, ">", "\n");
    Read1(r1, '>');
    Read1(Reader(Elements(r)[..|Elements(r)| - 1], Content), '\n');
  }

  lemma EndLineRead(r: Reader, indent: string, name: string)
    requires r.place.Content? && IsName(name) && r.open != [] && r.open[|r.open| - 1] == name && '<' !in indent
    ensures ReadAll(r, indent + "</" + name + ">\n") == Reader(r.open[..|r.open| - 1], Content)
  {
    var tag := "</" + name + ">";
    assert indent + "</" + name + ">\n" == indent + tag + "\n";
    ReadAppend(r, indent + tag, "\n");
    ReadAppend(r, indent, tag);
    ContentRead(r, indent);
    EndTagRead(r, name);
    Read1(Reader(r.open[..|r.open| - 1], Content), '\n');
  }
}
