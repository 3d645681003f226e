/** The text of a page as people write it: quoted, bare and missing attribute values, capital
    letters, self-closing slashes, blanks, comments and document types. Whatever the choice,
    the parser builds the tree that is meant. */
module HtmlWritten {
  import opened Common
  import opened HtmlGrammar
  import opened HtmlRoundTrip
  import GoStrings

  // ---------- ways of writing ----------

  datatype Style = Quoted(mark: char) | Bare | Missing

  /** An attribute after a gap; `space` follows its equals sign. */
  datatype Attr = Attr(gap: string, key: string, style: Style, space: string, val: string)

  /** A node after a gap. The opening tag ends with `trail` and perhaps a slash; `tail` comes
      before the closing tag and `extra` after the name in it. */
  datatype Item =
    | Words(gap: string, data: string)
    | Tagged(gap: string, tag: string, attrs: seq<Attr>, trail: string, slash: bool,
             children: seq<Item>, tail: string, extra: string)
    | Comment(gap: string, body: string)
    | Doctype(gap: string, capitals: bool, body: string)

  function WriteValue(a: Attr): string {
    match a.style
    case Quoted(mark) => "=" + (a.space + ([mark] + (a.val + [mark])))
    case Bare => "=" + (a.space + a.val)
    case Missing => ""
  }

  function WriteAttr(a: Attr): string {
    a.gap + (a.key + WriteValue(a))
  }

  function WriteAttrs(attrs: seq<Attr>): string {
    if attrs == [] then "" else WriteAttr(attrs[0]) + WriteAttrs(attrs[1..])
  }

  function WriteEnd(trail: string, slash: bool): string {
    trail + if slash then "/>" else ">"
  }

  function WriteOpen(tag: string, attrs: seq<Attr>, trail: string, slash: bool): string {
    "<" + (tag + (WriteAttrs(attrs) + WriteEnd(trail, slash)))
  }

  /** Closing tags are written in small letters. */
  function WriteClose(tag: string, extra: string): string {
    "</" + (GoStrings.Lower(tag) + (extra + ">"))
  }

  /** A node without the gap before it. */
  function WriteBody(n: Item): string
    decreases n, 0
  {
    match n
    case Words(_, data) => data
    case Tagged(_, tag, attrs, trail, slash, children, tail, extra) =>
      WriteOpen(tag, attrs, trail, slash) +
      if IsVoid(GoStrings.Lower(tag)) then "" else Write(children) + (tail + WriteClose(tag, extra))
    case Comment(_, body) => "<!--" + (body + "-->")
    case Doctype(_, capitals, body) => (if capitals then "<!DOCTYPE" else "<!doctype") + (body + ">")
  }

  function Write(f: seq<Item>): string
    decreases f, 1
  {
    if f == [] then "" else f[0].gap + (WriteBody(f[0]) + Write(f[1..]))
  }

  // ---------- what is meant ----------

  function MeantAttr(a: Attr): Attribute {
    Attribute(GoStrings.Lower(a.key), if a.style.Missing? then "" else a.val)
  }

  function MeantAttrs(attrs: seq<Attr>): seq<Attribute> {
    if attrs == [] then [] else [MeantAttr(attrs[0])] + MeantAttrs(attrs[1..])
  }

  /** Comments and document types leave no node. */
  function Meant(f: seq<Item>): seq<Node>
    decreases f, 1
  {
    if f == [] then [] else MeantOne(f[0]) + Meant(f[1..])
  }

  function MeantOne(n: Item): seq<Node>
    decreases n, 0
  {
    match n
    case Words(_, data) => [Text(data)]
    case Tagged(_, tag, attrs, _, _, children, _, _) =>
      [Element(GoStrings.Lower(tag), MeantAttrs(attrs), Meant(children))]
    case _ => []
  }

  // ---------- what may be written ----------

  predicate Blank(c: char) {
    c in " \t\n\U{B}\U{C}\r\U{85}\U{A0}"
  }

  lemma BlankIsSpace(c: char)
    ensures Blank(c) <==> IsSpace(c)
  {
  }

  predicate Blanks(x: string) {
    forall i :: 0 <= i < |x| ==> Blank(x[i])
  }

  predicate TagFits(tag: string) {
    && tag != ""
    && forall i :: 0 <= i < |tag| ==>
         'a' <= tag[i] <= 'z' || 'A' <= tag[i] <= 'Z' || '0' <= tag[i] <= '9' || tag[i] == '-' || tag[i] == '_'
  }

  predicate Without(x: string, chars: string) {
    forall i :: 0 <= i < |x| ==> x[i] !in chars
  }

  predicate Solid(x: string, chars: string) {
    forall i :: 0 <= i < |x| ==> !Blank(x[i]) && x[i] !in chars
  }

  predicate AttrFits(a: Attr) {
    && Blanks(a.gap) && Blanks(a.space)
    && Solid(a.key, "=>") && (a.key != "" ==> a.key[0] != '/')
    && match a.style
       case Quoted(mark) => (mark == '"' || mark == '\'') && mark !in a.val
       case Bare => a.val != "" && a.val[0] !in "\"'" && Solid(a.val, ">")
       case Missing => a.key != ""
  }

  /** Only a closing quote lets something follow without a blank. */
  predicate AttrsFit(attrs: seq<Attr>, trail: string, slash: bool, quoted: bool) {
    if attrs == [] then Blanks(trail) && (slash && trail == "" ==> quoted)
    else
      && AttrFits(attrs[0]) && (attrs[0].gap == "" ==> quoted)
      && AttrsFit(attrs[1..], trail, slash, attrs[0].style.Quoted?)
  }

  /** The name of the tag is followed by a blank, the slash or the end of the tag. */
  predicate TagAttrsFit(attrs: seq<Attr>, trail: string, slash: bool) {
    AttrsFit(attrs, trail, slash, true) && (attrs != [] ==> attrs[0].gap != "")
  }

  predicate CommentFits(body: string) {
    forall i :: 0 <= i < |body| ==> !OccursAt(body + "-->", "-->", i)
  }

  /** What stands before a node in its list. */
  datatype Before = Start | Tag | Txt | Note

  function Kind(n: Item): Before {
    match n
    case Words(_, _) => Txt
    case Comment(_, _) => Note
    case _ => Tag
  }

  /** Blanks after text belong to the text, and at the top those after a comment too. */
  predicate GapFits(gap: string, top: bool, before: Before) {
    Blanks(gap) && (gap == "" || before.Start? || before.Tag? || (before.Note? && !top))
  }

  /** Before a closing tag blanks may follow elements only. */
  predicate TailFits(tail: string, top: bool, before: Before) {
    Blanks(tail) && (tail == "" || before.Tag? || (before.Start? && top))
  }

  predicate WordsFit(data: string, top: bool, before: Before) {
    && data != "" && Without(data, "<") && !before.Txt?
    && (!(top && before.Note?) ==> !Blank(data[0]))
  }

  predicate Fits(f: seq<Item>, tail: string, top: bool, before: Before)
    decreases f, 1
  {
    if f == [] then TailFits(tail, top, before)
    else FitsOne(f[0], top, before) && Fits(f[1..], tail, top, Kind(f[0]))
  }

  predicate FitsOne(n: Item, top: bool, before: Before)
    decreases n, 0
  {
    && GapFits(n.gap, top, before)
    && match n
       case Words(_, data) => WordsFit(data, top, before)
       case Comment(_, body) => CommentFits(body)
       case Doctype(_, _, body) => top && Without(body, ">")
       case Tagged(_, tag, attrs, trail, slash, children, tail, extra) =>
         && TagFits(tag) && TagAttrsFit(attrs, trail, slash)
         && if IsVoid(GoStrings.Lower(tag)) then children == []
            else Fits(children, tail, false, Start) && Without(extra, ">")
  }

  // ---------- blanks ----------

  lemma BlanksAreSpace(x: string)
    requires Blanks(x)
    ensures forall i :: 0 <= i < |x| ==> IsSpace(x[i])
  {
    forall i | 0 <= i < |x| ensures IsSpace(x[i]) {
      BlankIsSpace(x[i]);
    }
  }

  /** Skipping stops at what follows the blanks. */
  lemma SkipsBlanks(s: string, pos: nat, blanks: string)
    requires Blanks(blanks) && At(s, pos, blanks)
    requires pos + |blanks| < |s| ==> !IsSpace(s[pos + |blanks|])
    ensures SkipSpace(s, pos) == pos + |blanks|
  {
    BlanksAreSpace(blanks);
    AtChars(s, pos, blanks);
    ScanTo(s, pos, IsSpace, pos + |blanks|);
  }

  // ---------- attributes ----------

  /** What may follow a word: a blank or the end of the tag. */
  predicate EndsWord(rest: string) {
    rest != "" && (Blank(rest[0]) || rest[0] == '>')
  }

  lemma QuotedScans(s: string, start: nat, mark: char, val: string)
    requires (mark == '"' || mark == '\'') && mark !in val && At(s, start, [mark] + (val + [mark]))
    ensures var end := start + 1 + |val|;
            && end < |s| && s[start] == mark && s[start + 1..end] == val
            && Scan(s, start + 1, if mark == '"' then NotDouble else NotSingle) == end
  {
    hide At;
    var x := val + [mark];
    AtSplit(s, start, [mark], x);
    AtChars(s, start, [mark]);
    AtChars(s, start + 1, x);
    assert val == x[..|val|] == s[start + 1..start + 1 + |val|];
    assert forall i :: 0 <= i < |val| ==> val[i] in val;
    ScanTo(s, start + 1, if mark == '"' then NotDouble else NotSingle, start + 1 + |val|);
  }

  /** A quoted value is read up to its own mark; it may hold the other one. */
  lemma QuotedReads(s: string, pos: nat, space: string, mark: char, val: string)
    requires Blanks(space) && (mark == '"' || mark == '\'') && mark !in val
    requires At(s, pos, space + ([mark] + (val + [mark])))
    ensures pos <= |s| && AttrValue(s, pos) == (val, pos + |space| + |val| + 2)
  {
    hide At, Blanks;
    AtSplit(s, pos, space, [mark] + (val + [mark]));
    QuotedScans(s, pos + |space|, mark, val);
    SkipsBlanks(s, pos, space);
  }

  /** A bare value is read up to a blank or the end of the tag. */
  lemma BareReads(s: string, pos: nat, space: string, val: string, rest: string)
    requires Blanks(space) && val != "" && val[0] !in "\"'" && Solid(val, ">") && EndsWord(rest)
    requires At(s, pos, space + (val + rest))
    ensures pos <= |s| && AttrValue(s, pos) == (val, pos + |space| + |val|)
  {
    AtSplit(s, pos, space, val + rest);
    var start := pos + |space|;
    AtSplit(s, start, val, rest);
    AtChars(s, start, val);
    AtChars(s, start + |val|, rest);
    hide At;
    SolidScans(s, start, val, ">");
    SkipsBlanks(s, pos, space);
    BlankIsSpace(rest[0]);
    ScanTo(s, start, IsBareChar, start + |val|);
  }

  lemma SolidScans(s: string, start: nat, x: string, chars: string)
    requires Solid(x, chars) && start + |x| <= |s| && s[start..start + |x|] == x
    ensures forall i :: start <= i < start + |x| ==> !IsSpace(s[i]) && s[i] !in chars
  {
    forall i | start <= i < start + |x| ensures !IsSpace(s[i]) && s[i] !in chars {
      assert s[start..start + |x|][i - start] == s[i];
      BlankIsSpace(s[i]);
    }
  }

  /** What follows an attribute when it does not end with its own mark. */
  predicate FollowsAttr(a: Attr, rest: string) {
    a.style.Quoted? || EndsWord(rest)
  }

  lemma KeyScans(s: string, pos: nat, key: string, rest: string)
    requires Solid(key, "=>") && At(s, pos, key + rest)
    requires rest != "" && (rest[0] == '=' || EndsWord(rest))
    ensures pos + |key| < |s| && s[pos + |key|] == rest[0]
    ensures Scan(s, pos, IsKeyChar) == pos + |key| && s[pos..pos + |key|] == key
  {
    AtSplit(s, pos, key, rest);
    AtChars(s, pos, key);
    AtChars(s, pos + |key|, rest);
    hide At;
    SolidScans(s, pos, key, "=>");
    BlankIsSpace(rest[0]);
    ScanTo(s, pos, IsKeyChar, pos + |key|);
  }

  lemma KeyStarts(s: string, pos: nat, a: Attr, rest: string)
    requires AttrFits(a) && At(s, pos, a.key + (WriteValue(a) + rest))
    ensures pos < |s| && !EndsAttrs(s, pos) && !IsSpace(s[pos])
  {
    var all := a.key + (WriteValue(a) + rest);
    AtChars(s, pos, all);
    assert s[pos] == all[0];
    BlankIsSpace(s[pos]);
  }

  lemma MissingReads(s: string, pos: nat, a: Attr, rest: string)
    requires AttrFits(a) && a.style.Missing? && At(s, pos, a.key + (WriteValue(a) + rest)) && EndsWord(rest)
    requires pos < |s| && !EndsAttrs(s, pos) && !IsSpace(s[pos])
    ensures OneAttr(s, pos) == (MeantAttr(a), pos + |a.key| + |WriteValue(a)|)
  {
    assert WriteValue(a) + rest == rest;
    hide At;
    KeyScans(s, pos, a.key, rest);
    BlankIsSpace('=');
  }

  /** After the equals sign. */
  lemma ValueReads(s: string, pos: nat, a: Attr, rest: string)
    requires AttrFits(a) && !a.style.Missing? && At(s, pos, WriteValue(a) + rest) && FollowsAttr(a, rest)
    ensures pos < |s| && s[pos] == '=' && AttrValue(s, pos + 1) == (a.val, pos + |WriteValue(a)|)
  {
    hide At, AttrValue, Blanks, Solid;
    var value := WriteValue(a);
    AtSplit(s, pos, value, rest);
    match a.style {
      case Quoted(mark) =>
        AtSplit(s, pos, "=", a.space + ([mark] + (a.val + [mark])));
        QuotedReads(s, pos + 1, a.space, mark, a.val);
      case Bare =>
        assert value + rest == "=" + (a.space + (a.val + rest));
        AtSplit(s, pos, "=", a.space + (a.val + rest));
        BareReads(s, pos + 1, a.space, a.val, rest);
    }
    AtChars(s, pos, "=");
  }

  lemma AttrReads(s: string, pos: nat, a: Attr, rest: string)
    requires AttrFits(a) && At(s, pos, a.key + (WriteValue(a) + rest)) && FollowsAttr(a, rest)
    ensures pos < |s| && !EndsAttrs(s, pos) && !IsSpace(s[pos])
    ensures OneAttr(s, pos) == (MeantAttr(a), pos + |a.key| + |WriteValue(a)|)
  {
    hide At, AttrValue, GoStrings.Lower;
    KeyStarts(s, pos, a, rest);
    if a.style.Missing? {
      MissingReads(s, pos, a, rest);
    } else {
      assert WriteValue(a)[0] == '=';
      AtSplit(s, pos, a.key, WriteValue(a) + rest);
      KeyScans(s, pos, a.key, WriteValue(a) + rest);
      hide WriteValue, AttrFits;
      ValueReads(s, pos + |a.key|, a, rest);
    }
  }

  /** One turn of the attribute loop. */
  lemma AttrStep(s: string, pos: nat, a: Attr, rest: string, acc: seq<Attribute>)
    requires AttrFits(a) && At(s, pos, WriteAttr(a) + rest) && FollowsAttr(a, rest)
    ensures At(s, pos + |WriteAttr(a)|, rest)
    ensures Attrs(s, pos, acc) == Attrs(s, pos + |WriteAttr(a)|, acc + [MeantAttr(a)])
  {
    hide At, OneAttr, FollowsAttr, WriteValue, MeantAttr;
    AtSplit(s, pos, WriteAttr(a), rest);
    var body := a.key + (WriteValue(a) + rest);
    assert WriteAttr(a) + rest == a.gap + body;
    AtSplit(s, pos, a.gap, body);
    AttrReads(s, pos + |a.gap|, a, rest);
    SkipsBlanks(s, pos, a.gap);
    AtChars(s, pos, a.gap);
    BlanksAreSpace(a.gap);
    hide AttrFits, Blanks;
    assert a.gap != "" ==> s[pos] == a.gap[0];
  }

  /** The loop stops at the slash or the bracket, also behind blanks. */
  lemma AttrsEnd(s: string, pos: nat, trail: string, slash: bool, acc: seq<Attribute>)
    requires Blanks(trail) && At(s, pos, WriteEnd(trail, slash))
    ensures pos <= |s| && Attrs(s, pos, acc) == (acc, pos + |trail|)
    ensures TagEnd(s, pos + |trail|) == pos + |WriteEnd(trail, slash)|
  {
    var close := if slash then "/>" else ">";
    AtSplit(s, pos, trail, close);
    AtChars(s, pos, trail);
    AtChars(s, pos + |trail|, close);
    hide At;
    assert s[pos + |trail|] == close[0];
    SkipsBlanks(s, pos, trail);
    BlanksAreSpace(trail);
    assert trail != "" ==> s[pos] == trail[0];
  }

  /** The rest of the tag starts with a blank or a bracket where nothing else may follow. */
  lemma RestEndsWord(attrs: seq<Attr>, trail: string, slash: bool)
    requires AttrsFit(attrs, trail, slash, false)
    ensures EndsWord(WriteAttrs(attrs) + WriteEnd(trail, slash))
  {
    if attrs != [] {
      assert (WriteAttrs(attrs) + WriteEnd(trail, slash))[0] == WriteAttr(attrs[0])[0] == attrs[0].gap[0];
    } else {
      assert WriteAttrs(attrs) + WriteEnd(trail, slash) == WriteEnd(trail, slash);
    }
  }

  lemma {:induction false} AttrsRead(
      s: string, pos: nat, attrs: seq<Attr>, trail: string, slash: bool, quoted: bool, acc: seq<Attribute>)
    requires AttrsFit(attrs, trail, slash, quoted) && At(s, pos, WriteAttrs(attrs) + WriteEnd(trail, slash))
    ensures pos <= |s| && Attrs(s, pos, acc) == (acc + MeantAttrs(attrs), pos + |WriteAttrs(attrs)| + |trail|)
    ensures TagEnd(s, pos + |WriteAttrs(attrs)| + |trail|) == pos + |WriteAttrs(attrs)| + |WriteEnd(trail, slash)|
    decreases |attrs|
  {
    hide Attrs, At, WriteAttr, AttrFits, WriteEnd, Blanks, TagEnd, MeantAttr;
    var end := WriteEnd(trail, slash);
    if attrs == [] {
      assert WriteAttrs(attrs) + end == end;
      AttrsEnd(s, pos, trail, slash, acc);
      assert acc + MeantAttrs(attrs) == acc;
    } else {
      var a, rest := attrs[0], WriteAttrs(attrs[1..]) + end;
      assert WriteAttrs(attrs) + end == WriteAttr(a) + rest;
      if !a.style.Quoted? {
        RestEndsWord(attrs[1..], trail, slash);
      }
      AttrStep(s, pos, a, rest, acc);
      AttrsRead(s, pos + |WriteAttr(a)|, attrs[1..], trail, slash, a.style.Quoted?, acc + [MeantAttr(a)]);
      assert acc + [MeantAttr(a)] + MeantAttrs(attrs[1..]) == acc + MeantAttrs(attrs);
    }
  }

  // ---------- opening and closing tags ----------

  lemma TagPlain(tag: string)
    requires TagFits(tag)
    ensures forall i :: 0 <= i < |tag| ==> IsNameChar(tag[i])
    ensures tag[0] != '/' && tag[0] != '!' && Without(GoStrings.Lower(tag), ">")
  {
  }

  /** The name ends where a blank, the slash or the bracket follows it. */
  lemma RestEndsName(attrs: seq<Attr>, trail: string, slash: bool)
    requires TagAttrsFit(attrs, trail, slash)
    ensures var rest := WriteAttrs(attrs) + WriteEnd(trail, slash); rest != "" && !IsNameChar(rest[0])
  {
    var rest := WriteAttrs(attrs) + WriteEnd(trail, slash);
    hide IsNameChar, Blank, Solid;
    if attrs != [] {
      assert rest[0] == attrs[0].gap[0];
    } else {
      assert rest == WriteEnd(trail, slash);
    }
    BlankEndsName(rest[0]);
  }

  lemma BlankEndsName(c: char)
    ensures Blank(c) || c == '/' || c == '>' ==> !IsNameChar(c)
  {
  }

  lemma NameReads(s: string, pos: nat, tag: string, rest: string)
    requires TagFits(tag) && rest != "" && !IsNameChar(rest[0]) && At(s, pos, "<" + (tag + rest))
    ensures pos + 1 + |tag| < |s| && s[pos] == '<' && s[pos + 1] == tag[0]
    ensures Scan(s, pos + 1, IsNameChar) == pos + 1 + |tag| && s[pos + 1..pos + 1 + |tag|] == tag
    ensures At(s, pos + 1 + |tag|, rest)
  {
    AtSplit(s, pos, "<", tag + rest);
    AtSplit(s, pos + 1, tag, rest);
    AtChars(s, pos, "<");
    AtChars(s, pos + 1, tag);
    AtChars(s, pos + 1 + |tag|, rest);
    hide At;
    TagPlain(tag);
    hide TagFits;
    assert s[pos + 1 + |tag|] == rest[0];
    ScanTo(s, pos + 1, IsNameChar, pos + 1 + |tag|);
  }

  /** The opening tag is read as it is meant, whatever follows it. */
  lemma OpenReads(s: string, pos: nat, tag: string, attrs: seq<Attr>, trail: string, slash: bool)
    requires TagFits(tag) && TagAttrsFit(attrs, trail, slash) && At(s, pos, WriteOpen(tag, attrs, trail, slash))
    ensures pos + 1 < |s| && s[pos] == '<' && s[pos + 1] != '/' && s[pos + 1] != '!'
    ensures var end := Scan(s, pos + 1, IsNameChar);
            && end <= |s| && GoStrings.Lower(s[pos + 1..end]) == GoStrings.Lower(tag)
            && Attrs(s, end, []).0 == MeantAttrs(attrs)
            && TagEnd(s, Attrs(s, end, []).1) == pos + |WriteOpen(tag, attrs, trail, slash)|
  {
    hide At, AttrsFit, Attrs, TagEnd, WriteAttrs, WriteEnd, TagFits, GoStrings.Lower;
    RestEndsName(attrs, trail, slash);
    NameReads(s, pos, tag, WriteAttrs(attrs) + WriteEnd(trail, slash));
    AttrsRead(s, pos + 1 + |tag|, attrs, trail, slash, true, []);
    assert [] + MeantAttrs(attrs) == MeantAttrs(attrs);
    TagPlain(tag);
  }

  lemma CloseReads(s: string, at: nat, tag: string, extra: string)
    requires TagFits(tag) && Without(extra, ">") && At(s, at, WriteClose(tag, extra))
    ensures at < |s| && s[at] == '<' && Match(s, at, "</") && Match(s, at, "</" + GoStrings.Lower(tag))
    ensures PastGt(s, at + 2) == at + |WriteClose(tag, extra)|
  {
    var name := GoStrings.Lower(tag);
    TagPlain(tag);
    hide GoStrings.Lower, TagFits, At;
    AtSplit(s, at, "</", name + (extra + ">"));
    AtChars(s, at, "</");
    assert name + (extra + ">") == (name + extra) + ">";
    AtSplit(s, at + 2, name, extra + ">");
    AtChars(s, at + 2, name);
    assert s[at..at + 2 + |name|] == s[at..at + 2] + s[at + 2..at + 2 + |name|];
    ClosedReads(s, at + 2, name + extra);
  }

  lemma ClosedReads(s: string, pos: nat, x: string)
    requires Without(x, ">") && At(s, pos, x + ">")
    ensures PastGt(s, pos) == pos + |x| + 1
  {
    AtSplit(s, pos, x, ">");
    AtChars(s, pos, x);
    AtChars(s, pos + |x|, ">");
    hide At;
    ScanTo(s, pos, NotGt, pos + |x|);
  }

  // ---------- comments and document types ----------

  lemma {:induction false} MarkFound(s: string, from: nat, end: nat)
    requires from <= end && end + 2 < |s| && OccursAt(s, "-->", end)
    requires forall i :: from <= i < end ==> !OccursAt(s, "-->", i)
    ensures FindCommentEnd(s, from) == end
    decreases end - from
  {
    assert s[end] == s[end..end + 3][0] && s[end + 1] == s[end..end + 3][1] && s[end + 2] == s[end..end + 3][2];
    if from < end {
      assert !OccursAt(s, "-->", from);
      assert s[from..from + 3] == [s[from], s[from + 1], s[from + 2]];
      MarkFound(s, from + 1, end);
    }
  }

  /** A comment ends with the first mark after its opening. */
  lemma CommentReads(s: string, pos: nat, body: string)
    requires CommentFits(body) && At(s, pos, "<!--" + (body + "-->"))
    ensures pos < |s| && s[pos] == '<' && Match(s, pos, "<!--")
    ensures CommentEnd(s, pos) == pos + |body| + 7 <= |s| && CommentCloses(s, pos)
  {
    var rest := body + "-->";
    AtSplit(s, pos, "<!--", rest);
    AtChars(s, pos, "<!--");
    AtChars(s, pos + 4, rest);
    hide At;
    var end := pos + 4 + |body|;
    assert s[end..end + 3] == rest[|body|..] == "-->";
    forall i | pos + 4 <= i < end ensures !OccursAt(s, "-->", i) {
      assert s[i..i + 3] == rest[i - pos - 4..i - pos - 4 + 3];
      assert !OccursAt(rest, "-->", i - pos - 4);
    }
    MarkFound(s, pos + 4, end);
  }

  lemma DoctypeReads(s: string, pos: nat, capitals: bool, body: string)
    requires Without(body, ">") && At(s, pos, (if capitals then "<!DOCTYPE" else "<!doctype") + (body + ">"))
    ensures pos < |s| && s[pos] == '<' && (Match(s, pos, "<!DOCTYPE") || Match(s, pos, "<!doctype"))
    ensures PastGt(s, pos) == pos + |body| + 10
  {
    var open := if capitals then "<!DOCTYPE" else "<!doctype";
    AtSplit(s, pos, open, body + ">");
    AtChars(s, pos, open);
    hide At;
    assert open + (body + ">") == (open + body) + ">";
    ClosedReads(s, pos, open + body);
  }

  // ---------- turns of the two loops ----------

  ghost predicate NoClose(s: string, pos: nat)
    requires pos <= |s|
  {
    forall tag :: !Match(s, pos, "</" + tag)
  }

  lemma NoCloseFrom(s: string, pos: nat)
    requires pos < |s| && (s[pos] == '<' ==> pos + 1 < |s| && s[pos + 1] != '/')
    ensures NoClose(s, pos)
  {
    forall tag: string ensures !Match(s, pos, "</" + tag) {
      if Match(s, pos, "</" + tag) {
        FirstTwo(s, pos, "</" + tag);
      }
    }
  }

  /** Blanks before a node make no difference to the loop over the children. */
  lemma GapTurn(s: string, pos: nat, tag: string, acc: seq<Node>, gap: string)
    requires Blanks(gap) && At(s, pos, gap) && pos + |gap| < |s|
    requires !IsSpace(s[pos + |gap|]) && NoClose(s, pos + |gap|)
    ensures ParseChildren(s, pos, tag, acc) == ParseChildren(s, pos + |gap|, tag, acc)
  {
    if gap != "" {
      var at := pos + |gap|;
      SkipsBlanks(s, pos, gap);
      ScanTo(s, at, IsSpace, at);
      AtChars(s, pos, gap);
      hide At;
      assert s[pos] == gap[0];
      NoCloseFrom(s, pos);
      LateTurn(s, pos, tag, acc, at);
    }
  }

  lemma LateTurn(s: string, pos: nat, tag: string, acc: seq<Node>, at: nat)
    requires pos < |s| && SkipSpace(s, pos) == at < |s| && SkipSpace(s, at) == at
    requires NoClose(s, pos) && NoClose(s, at)
    ensures ParseChildren(s, pos, tag, acc) == ParseChildren(s, at, tag, acc)
  {
    hide ParseElement, CommentEnd, IsClosingTag, SkipSpace, Scan;
  }

  lemma TagTurn(s: string, pos: nat, tag: string, acc: seq<Node>, n: Node, next: nat)
    requires PlainStart(s, pos) && s[pos] == '<' && !IsClosingTag(n) && ParseElement(s, pos) == Parsed(n, next)
    ensures ParseChildren(s, pos, tag, acc) == ParseChildren(s, SkipSpace(s, next), tag, acc + [n])
    ensures ParseTop(s, pos, acc) == ParseTop(s, SkipSpace(s, next), acc + [n])
  {
    hide ParseElement, CommentEnd, CommentCloses, IsClosingTag, IsSpace, PastGt, Scan;
  }

  lemma NoteTurn(s: string, pos: nat, tag: string, acc: seq<Node>)
    requires pos < |s| && s[pos] == '<' && Match(s, pos, "<!--")
    ensures ParseChildren(s, pos, tag, acc) == ParseChildren(s, CommentEnd(s, pos), tag, acc)
    ensures CommentCloses(s, pos) ==> ParseTop(s, pos, acc) == ParseTop(s, CommentEnd(s, pos), acc)
  {
    FirstTwo(s, pos, "<!--");
    NoCloseFrom(s, pos);
    ScanTo(s, pos, IsSpace, pos);
    NoDoctype(s, pos);
    hide ParseElement, CommentEnd, CommentCloses, IsClosingTag, IsSpace, PastGt, Scan;
  }

  lemma NoDoctype(s: string, pos: nat)
    requires pos < |s| && Match(s, pos, "<!--")
    ensures !Match(s, pos, "<!DOCTYPE") && !Match(s, pos, "<!doctype")
  {
    Third(s, pos, "<!--");
    if Match(s, pos, "<!DOCTYPE") { Third(s, pos, "<!DOCTYPE"); }
    if Match(s, pos, "<!doctype") { Third(s, pos, "<!doctype"); }
  }

  lemma Third(s: string, pos: nat, x: string)
    requires pos <= |s| && |x| > 2 && Match(s, pos, x)
    ensures pos + 2 < |s| && s[pos + 2] == x[2]
  {
    assert s[pos + 2] == s[pos..pos + |x|][2];
  }

  lemma DoctypeTurn(s: string, pos: nat, acc: seq<Node>)
    requires pos < |s| && (Match(s, pos, "<!DOCTYPE") || Match(s, pos, "<!doctype"))
    ensures ParseTop(s, pos, acc) == ParseTop(s, SkipSpace(s, PastGt(s, pos)), acc)
  {
    hide ParseElement, CommentEnd, CommentCloses, IsClosingTag, IsSpace, PastGt, Scan;
  }

  /** At the top text may also begin with blanks. */
  lemma TopWordsTurn(s: string, pos: nat, acc: seq<Node>, end: nat)
    requires pos < |s| && s[pos] != '<' && Scan(s, pos, NotLt) == end
    ensures ParseTop(s, pos, acc) == ParseTop(s, end, acc + [Text(s[pos..end])])
  {
    if Match(s, pos, "<!DOCTYPE") { FirstTwo(s, pos, "<!DOCTYPE"); }
    if Match(s, pos, "<!doctype") { FirstTwo(s, pos, "<!doctype"); }
    if Match(s, pos, "<!--") { FirstTwo(s, pos, "<!--"); }
    MatchLt(s, pos);
    hide ParseElement, CommentEnd, CommentCloses, IsSpace, PastGt, Match;
  }

  // ---------- lists of nodes ----------

  function FirstGap(f: seq<Item>, tail: string): string {
    if f == [] then tail else f[0].gap
  }

  /** How a node begins: only text begins with anything but '<', and only at the top, after a
      comment, with a blank. */
  lemma ItemStarts(s: string, pos: nat, n: Item, top: bool, before: Before)
    requires FitsOne(n, top, before) && At(s, pos, WriteBody(n))
    ensures pos < |s| && (s[pos] == '<' <==> !n.Words?) && NoClose(s, pos)
    ensures !(top && before.Note?) ==> !IsSpace(s[pos])
    ensures n.Tagged? || (n.Words? && !(top && before.Note?)) ==> PlainStart(s, pos)
  {
    match n
    case Words(_, data) =>
      AtChars(s, pos, data);
      BlankIsSpace(data[0]);
      NoCloseFrom(s, pos);
      if !(top && before.Note?) {
        PlainStartFrom(s, pos);
      }
    case Comment(_, body) =>
      CommentReads(s, pos, body);
      FirstTwo(s, pos, "<!--");
      NoCloseFrom(s, pos);
    case Doctype(_, capitals, body) =>
      DoctypeReads(s, pos, capitals, body);
      if Match(s, pos, "<!DOCTYPE") { FirstTwo(s, pos, "<!DOCTYPE"); }
      if Match(s, pos, "<!doctype") { FirstTwo(s, pos, "<!doctype"); }
      NoCloseFrom(s, pos);
    case Tagged(_, tag, attrs, trail, slash, children, tail, extra) =>
      TaggedStarts(s, pos, n);
      PlainStartFrom(s, pos);
      NoCloseFrom(s, pos);
  }

  lemma TaggedStarts(s: string, pos: nat, n: Item)
    requires n.Tagged? && TagFits(n.tag) && TagAttrsFit(n.attrs, n.trail, n.slash) && At(s, pos, WriteBody(n))
    ensures At(s, pos, WriteOpen(n.tag, n.attrs, n.trail, n.slash))
    ensures pos + 1 < |s| && s[pos] == '<' && s[pos + 1] != '/' && s[pos + 1] != '!'
  {
    var open := WriteOpen(n.tag, n.attrs, n.trail, n.slash);
    AtSplit(s, pos, open, WriteBody(n)[|open|..]);
    OpenReads(s, pos, n.tag, n.attrs, n.trail, n.slash);
  }

  /** What follows the children: a closing tag, or nothing at the top. */
  ghost predicate Ended(s: string, end: nat, close: string) {
    if close == "" then end == |s| else close[0] == '<'
  }

  lemma Unfold(s: string, pos: nat, f: seq<Item>, tail: string, close: string)
    requires f != [] && At(s, pos, Write(f) + (tail + close))
    ensures var p, next := pos + |f[0].gap|, pos + |f[0].gap| + |WriteBody(f[0])|;
            && At(s, pos, f[0].gap) && At(s, p, WriteBody(f[0])) && At(s, next, Write(f[1..]) + (tail + close))
            && |Write(f)| == |f[0].gap| + |WriteBody(f[0])| + |Write(f[1..])|
  {
    hide At, WriteBody;
    var gap, body, rest := f[0].gap, WriteBody(f[0]), Write(f[1..]) + (tail + close);
    assert Write(f) + (tail + close) == gap + (body + rest);
    AtSplit(s, pos, gap, body + rest);
    AtSplit(s, pos + |gap|, body, rest);
  }

  /** What follows a node: a gap and then no blank; after text, no gap and '<'. */
  lemma RestStarts(s: string, pos: nat, f: seq<Item>, tail: string, top: bool, before: Before, close: string)
    requires Fits(f, tail, top, before) && At(s, pos, Write(f) + (tail + close))
    requires Ended(s, pos + |Write(f)| + |tail|, close)
    ensures At(s, pos, FirstGap(f, tail)) && pos + |FirstGap(f, tail)| <= |s|
    ensures !(top && before.Note?) ==> SkipSpace(s, pos) == pos + |FirstGap(f, tail)|
    ensures before.Txt? ==> FirstGap(f, tail) == "" && (pos == |s| || s[pos] == '<')
  {
    hide At, FitsOne, WriteBody, Blanks, Ended;
    if f == [] {
      assert Write(f) + (tail + close) == tail + close;
      AtSplit(s, pos, tail, close);
      AtChars(s, pos + |tail|, close);
      EndStarts(s, pos + |tail|, close);
      SkipsBlanks(s, pos, tail);
    } else {
      Unfold(s, pos, f, tail, close);
      FirstFits(f[0], top, before);
      ItemStarts(s, pos + |f[0].gap|, f[0], top, before);
      if !(top && before.Note?) {
        SkipsBlanks(s, pos, f[0].gap);
      }
    }
  }

  lemma EndStarts(s: string, end: nat, close: string)
    requires end + |close| <= |s| && s[end..end + |close|] == close && Ended(s, end, close)
    ensures end < |s| ==> s[end] == '<'
    ensures end < |s| ==> !IsSpace(s[end])
  {
    if close != "" {
      assert s[end] == s[end..end + |close|][0];
    }
  }

  lemma FirstFits(n: Item, top: bool, before: Before)
    requires FitsOne(n, top, before)
    ensures Blanks(n.gap) && (before.Txt? ==> n.gap == "" && !n.Words?)
    ensures before.Note? && top ==> n.gap == ""
  {
  }

  // ---------- one turn of the loops ----------

  /** The place of the first node of f, behind its gap, and the place right after that node. */
  function Place(pos: nat, f: seq<Item>): nat
    requires f != []
  {
    pos + |f[0].gap|
  }

  function After(pos: nat, f: seq<Item>): nat
    requires f != []
  {
    Place(pos, f) + |WriteBody(f[0])|
  }

  /** f, its tail and what follows stand in s at pos. */
  ghost predicate Stands(
      s: string, pos: nat, f: seq<Item>, tail: string, top: bool, before: Before, close: string)
  {
    && Fits(f, tail, top, before) && At(s, pos, Write(f) + (tail + close))
    && Ended(s, pos + |Write(f)| + |tail|, close)
  }

  lemma StandsFirst(s: string, pos: nat, f: seq<Item>, tail: string, top: bool, before: Before, close: string)
    requires f != [] && Stands(s, pos, f, tail, top, before, close)
    ensures FitsOne(f[0], top, before) && At(s, pos, f[0].gap) && At(s, Place(pos, f), WriteBody(f[0]))
    ensures Place(pos, f) <= After(pos, f) <= |s|
    ensures Stands(s, After(pos, f), f[1..], tail, top, Kind(f[0]), close)
    ensures After(pos, f) + |Write(f[1..])| == pos + |Write(f)|
  {
    hide At, FitsOne, WriteBody, Ended;
    Unfold(s, pos, f, tail, close);
    AtInside(s, Place(pos, f), WriteBody(f[0]));
  }

  lemma AtInside(s: string, pos: nat, x: string)
    requires At(s, pos, x)
    ensures pos + |x| <= |s|
  {
  }

  lemma NextStarts(s: string, pos: nat, f: seq<Item>, tail: string, top: bool, before: Before, close: string)
    requires Stands(s, pos, f, tail, top, before, close)
    ensures pos + |FirstGap(f, tail)| <= |s|
    ensures !(top && before.Note?) ==> SkipSpace(s, pos) == pos + |FirstGap(f, tail)|
    ensures before.Txt? ==> FirstGap(f, tail) == "" && (pos == |s| || s[pos] == '<')
  {
    RestStarts(s, pos, f, tail, top, before, close);
  }

  /** Unless a tag stands before it, the loop over the children also accepts the gap. */
  lemma FromGap(s: string, pos: nat, tag: string, acc: seq<Node>, f: seq<Item>, tail: string,
                before: Before, close: string)
    requires Stands(s, pos, f, tail, false, before, close) && !before.Tag?
    ensures ParseChildren(s, pos, tag, acc) == ParseChildren(s, pos + |FirstGap(f, tail)|, tag, acc)
  {
    hide *;
    if f == [] {
      NoTail(s, pos, f, tail, before, close);
    } else {
      GapIsPlace(pos, f, tail);
      StandsFirst(s, pos, f, tail, false, before, close);
      FirstFits(f[0], false, before);
      ItemStarts(s, Place(pos, f), f[0], false, before);
      GapTurn(s, pos, tag, acc, f[0].gap);
    }
  }

  lemma NoTail(s: string, pos: nat, f: seq<Item>, tail: string, before: Before, close: string)
    requires f == [] && Stands(s, pos, f, tail, false, before, close) && !before.Tag?
    ensures FirstGap(f, tail) == ""
  {
  }

  /** What a tag means. */
  function MeantTag(n: Item): Node
    requires n.Tagged?
  {
    Element(GoStrings.Lower(n.tag), MeantAttrs(n.attrs), Meant(n.children))
  }

  lemma NoSlashKey(key: string)
    requires key != "" ==> key[0] != '/'
    ensures GoStrings.Lower(key) != "/"
  {
    assert key != "" ==> GoStrings.Lower(key)[0] == GoStrings.LowerChar(key[0]);
  }

  lemma {:induction false} KeysStay(attrs: seq<Attr>, trail: string, slash: bool, quoted: bool)
    requires AttrsFit(attrs, trail, slash, quoted)
    ensures forall i :: 0 <= i < |MeantAttrs(attrs)| ==> MeantAttrs(attrs)[i].key != "/"
    decreases |attrs|
  {
    if attrs != [] {
      KeysStay(attrs[1..], trail, slash, attrs[0].style.Quoted?);
      NoSlashKey(attrs[0].key);
    }
  }

  lemma MeantStays(n: Item, top: bool, before: Before)
    requires n.Tagged? && FitsOne(n, top, before)
    ensures !IsClosingTag(MeantTag(n)) && MeantOne(n) == [MeantTag(n)]
  {
    KeysStay(n.attrs, n.trail, n.slash, true);
  }

  /** The element at the place of a tag is the one meant, and ends where its text does. */
  ghost predicate ReadsTag(s: string, pos: nat, n: Item)
    requires n.Tagged?
  {
    && pos < |s| && s[pos] == '<'
    && ParseElement(s, pos) == Parsed(MeantTag(n), pos + |WriteBody(n)|)
  }

  lemma ChildTurn(s: string, pos: nat, tag: string, acc: seq<Node>, f: seq<Item>, tail: string,
                  before: Before, close: string)
    requires f != [] && Stands(s, pos, f, tail, false, before, close)
    requires f[0].Tagged? ==> ReadsTag(s, Place(pos, f), f[0])
    ensures ParseChildren(s, Place(pos, f), tag, acc) ==
            ParseChildren(s, After(pos, f) + |FirstGap(f[1..], tail)|, tag, acc + MeantOne(f[0]))
  {
    hide *;
    var n, p, next := f[0], Place(pos, f), After(pos, f);
    StandsFirst(s, pos, f, tail, false, before, close);
    AfterIs(pos, f);
    NextStarts(s, next, f[1..], tail, false, Kind(n), close);
    ItemStarts(s, p, n, false, before);
    ItemFits(n, false, before);
    KindIs(n);
    if n.Words? {
      TextBackAt(s, p, n, next);
      PlainText(s, p, next);
      TextTurn(s, p, tag, acc, next);
    } else if n.Comment? {
      NoteIs(s, p, n, next);
      NoteTurn(s, p, tag, acc);
      assert acc + [] == acc;
      FromGap(s, next, tag, acc, f[1..], tail, Note, close);
    } else if n.Tagged? {
      TagStep(s, p, tag, acc, n, next, false, before);
    }
  }

  lemma PlainText(s: string, pos: nat, end: nat)
    requires PlainStart(s, pos) && s[pos] != '<' && pos < end && Scan(s, pos, NotLt) == end
    ensures SeesText(s, pos, end)
  {
  }

  lemma AfterIs(pos: nat, f: seq<Item>)
    requires f != []
    ensures After(pos, f) == Place(pos, f) + |WriteBody(f[0])|
  {
  }

  lemma KindIs(n: Item)
    ensures Kind(n).Txt? <==> n.Words?
    ensures Kind(n).Note? <==> n.Comment?
    ensures Kind(n).Tag? <==> n.Tagged? || n.Doctype?
    ensures n.Words? ==> MeantOne(n) == [Text(n.data)] && WriteBody(n) == n.data
    ensures n.Comment? || n.Doctype? ==> MeantOne(n) == []
  {
  }

  lemma TagStep(s: string, pos: nat, tag: string, acc: seq<Node>, n: Item, next: nat, top: bool, before: Before)
    requires n.Tagged? && FitsOne(n, top, before) && PlainStart(s, pos) && ReadsTag(s, pos, n)
    requires next == pos + |WriteBody(n)|
    ensures ParseChildren(s, pos, tag, acc) == ParseChildren(s, SkipSpace(s, next), tag, acc + MeantOne(n))
    ensures ParseTop(s, pos, acc) == ParseTop(s, SkipSpace(s, next), acc + MeantOne(n))
  {
    hide *;
    MeantStays(n, top, before);
    ReadsTagIs(s, pos, n);
    TagTurn(s, pos, tag, acc, MeantTag(n), next);
  }

  lemma ReadsTagIs(s: string, pos: nat, n: Item)
    requires n.Tagged? && ReadsTag(s, pos, n)
    ensures pos < |s| && s[pos] == '<' && ParseElement(s, pos) == Parsed(MeantTag(n), pos + |WriteBody(n)|)
  {
  }

  lemma TextBackAt(s: string, pos: nat, n: Item, end: nat)
    requires n.Words? && Without(n.data, "<") && n.data != "" && At(s, pos, WriteBody(n)) && end == pos + |n.data|
    requires end == |s| || (end < |s| && s[end] == '<')
    ensures pos < end && Scan(s, pos, NotLt) == end && s[pos..end] == n.data
  {
    AtChars(s, pos, n.data);
    hide At;
    ScanTo(s, pos, NotLt, end);
  }

  lemma NoteIs(s: string, pos: nat, n: Item, next: nat)
    requires n.Comment? && CommentFits(n.body) && At(s, pos, WriteBody(n)) && next == pos + |WriteBody(n)|
    ensures pos < |s| && s[pos] == '<' && Match(s, pos, "<!--") && CommentEnd(s, pos) == next
    ensures CommentCloses(s, pos)
  {
    CommentReads(s, pos, n.body);
  }

  lemma DoctypeIs(s: string, pos: nat, n: Item, next: nat)
    requires n.Doctype? && Without(n.body, ">") && At(s, pos, WriteBody(n)) && next == pos + |WriteBody(n)|
    ensures pos < |s| && (Match(s, pos, "<!DOCTYPE") || Match(s, pos, "<!doctype")) && PastGt(s, pos) == next
  {
    DoctypeReads(s, pos, n.capitals, n.body);
  }

  lemma TopTurn(s: string, pos: nat, acc: seq<Node>, f: seq<Item>, tail: string, before: Before,
                close: string)
    requires f != [] && Stands(s, pos, f, tail, true, before, close)
    requires f[0].Tagged? ==> ReadsTag(s, Place(pos, f), f[0])
    ensures ParseTop(s, Place(pos, f), acc) ==
            ParseTop(s, After(pos, f) + |FirstGap(f[1..], tail)|, acc + MeantOne(f[0]))
  {
    hide *;
    var n, p, next := f[0], Place(pos, f), After(pos, f);
    StandsFirst(s, pos, f, tail, true, before, close);
    AfterIs(pos, f);
    NextStarts(s, next, f[1..], tail, true, Kind(n), close);
    ItemStarts(s, p, n, true, before);
    ItemFits(n, true, before);
    KindIs(n);
    assert acc + [] == acc;
    if n.Words? {
      TextBackAt(s, p, n, next);
      TopWordsTurn(s, p, acc, next);
    } else if n.Comment? {
      NoteIs(s, p, n, next);
      NoteTurn(s, p, "", acc);
      NoGapAfterNote(s, next, f[1..], tail, close);
    } else if n.Doctype? {
      DoctypeIs(s, p, n, next);
      DoctypeTurn(s, p, acc);
    } else {
      TagStep(s, p, "", acc, n, next, true, before);
    }
  }

  lemma NoGapAfterNote(s: string, pos: nat, f: seq<Item>, tail: string, close: string)
    requires Stands(s, pos, f, tail, true, Note, close)
    ensures FirstGap(f, tail) == ""
  {
    if f != [] {
      FirstFits(f[0], true, Note);
    }
  }

  lemma ItemFits(n: Item, top: bool, before: Before)
    requires FitsOne(n, top, before)
    ensures n.Words? ==> n.data != "" && Without(n.data, "<")
    ensures n.Comment? ==> CommentFits(n.body)
    ensures n.Doctype? ==> top && Without(n.body, ">")
    ensures n.Tagged? ==> TagFits(n.tag) && TagAttrsFit(n.attrs, n.trail, n.slash)
    ensures n.Tagged? && IsVoid(GoStrings.Lower(n.tag)) ==> n.children == []
    ensures n.Tagged? && !IsVoid(GoStrings.Lower(n.tag)) ==>
              Fits(n.children, n.tail, false, Start) && Without(n.extra, ">")
  {
  }

  // ---------- elements ----------

  lemma ElementReads(s: string, pos: nat, n: Item, nodes: seq<Node>, at: nat)
    requires n.Tagged? && TagFits(n.tag) && TagAttrsFit(n.attrs, n.trail, n.slash) && Without(n.extra, ">")
    requires At(s, pos, WriteOpen(n.tag, n.attrs, n.trail, n.slash)) && !IsVoid(GoStrings.Lower(n.tag))
    requires ParseChildren(s, pos + |WriteOpen(n.tag, n.attrs, n.trail, n.slash)|, GoStrings.Lower(n.tag), []) ==
             Forest(nodes, at)
    requires At(s, at, WriteClose(n.tag, n.extra))
    ensures pos < |s| && s[pos] == '<'
    ensures ParseElement(s, pos) ==
            Parsed(Element(GoStrings.Lower(n.tag), MeantAttrs(n.attrs), nodes), at + |WriteClose(n.tag, n.extra)|)
  {
    hide At, AttrsFit, TagFits, Attrs, TagEnd, ParseChildren, IsVoid, WriteOpen, WriteClose, GoStrings.Lower;
    OpenReads(s, pos, n.tag, n.attrs, n.trail, n.slash);
    CloseReads(s, at, n.tag, n.extra);
  }

  lemma VoidReads(s: string, pos: nat, n: Item)
    requires n.Tagged? && TagFits(n.tag) && TagAttrsFit(n.attrs, n.trail, n.slash) && n.children == []
    requires At(s, pos, WriteOpen(n.tag, n.attrs, n.trail, n.slash)) && IsVoid(GoStrings.Lower(n.tag))
    ensures pos < |s| && s[pos] == '<'
    ensures ParseElement(s, pos) ==
            Parsed(Element(GoStrings.Lower(n.tag), MeantAttrs(n.attrs), Meant(n.children)),
                   pos + |WriteOpen(n.tag, n.attrs, n.trail, n.slash)|)
  {
    hide At, AttrsFit, TagFits, Attrs, TagEnd, ParseChildren, IsVoid, WriteOpen, WriteClose, GoStrings.Lower;
    OpenReads(s, pos, n.tag, n.attrs, n.trail, n.slash);
  }

  lemma BodyOfTag(n: Item)
    requires n.Tagged?
    ensures var open, close := WriteOpen(n.tag, n.attrs, n.trail, n.slash), WriteClose(n.tag, n.extra);
            WriteBody(n) == if IsVoid(GoStrings.Lower(n.tag)) then open
                            else open + (Write(n.children) + (n.tail + close))
  {
    hide IsVoid, WriteOpen, WriteClose;
  }

  /** A tag is read as the element it means. */
  lemma TagReads(s: string, pos: nat, n: Item, top: bool, before: Before)
    requires n.Tagged? && FitsOne(n, top, before) && At(s, pos, WriteBody(n))
    ensures ReadsTag(s, pos, n)
    decreases n, 0
  {
    hide *;
    ItemFits(n, top, before);
    BodyOfTag(n);
    var open, close := WriteOpen(n.tag, n.attrs, n.trail, n.slash), WriteClose(n.tag, n.extra);
    if IsVoid(GoStrings.Lower(n.tag)) {
      VoidReads(s, pos, n);
      TagIsRead(s, pos, n);
    } else {
      var text := Write(n.children) + (n.tail + close);
      AtSplit(s, pos, open, text);
      var inside, end := pos + |open|, pos + |open| + |Write(n.children)| + |n.tail|;
      CloseStands(s, inside, n);
      FromGap(s, inside, GoStrings.Lower(n.tag), [], n.children, n.tail, Start, close);
      ItemsTurn(s, inside, GoStrings.Lower(n.tag), [], n.children, n.tail, Start, close);
      ChildrenEnd(s, end, n.tag, [] + Meant(n.children), n.extra);
      assert [] + Meant(n.children) == Meant(n.children);
      ElementReads(s, pos, n, Meant(n.children), end);
      TagIsRead(s, pos, n);
    }
  }

  lemma TagIsRead(s: string, pos: nat, n: Item)
    requires n.Tagged? && pos < |s| && s[pos] == '<'
    requires ParseElement(s, pos) ==
             Parsed(Element(GoStrings.Lower(n.tag), MeantAttrs(n.attrs), Meant(n.children)), pos + |WriteBody(n)|)
    ensures ReadsTag(s, pos, n)
  {
  }

  /** Behind an opening tag stand the children, and then the closing tag. */
  lemma CloseStands(s: string, pos: nat, n: Item)
    requires n.Tagged? && Fits(n.children, n.tail, false, Start)
    requires At(s, pos, Write(n.children) + (n.tail + WriteClose(n.tag, n.extra)))
    ensures Stands(s, pos, n.children, n.tail, false, Start, WriteClose(n.tag, n.extra))
    ensures At(s, pos + |Write(n.children)| + |n.tail|, WriteClose(n.tag, n.extra))
  {
    AtSplit(s, pos, Write(n.children), n.tail + WriteClose(n.tag, n.extra));
    AtSplit(s, pos + |Write(n.children)|, n.tail, WriteClose(n.tag, n.extra));
  }

  lemma ChildrenEnd(s: string, end: nat, tag: string, acc: seq<Node>, extra: string)
    requires TagFits(tag) && Without(extra, ">") && At(s, end, WriteClose(tag, extra))
    ensures ParseChildren(s, end, GoStrings.Lower(tag), acc) == Forest(acc, end)
  {
    CloseReads(s, end, tag, extra);
  }

  lemma NoItems(s: string, pos: nat, acc: seq<Node>, f: seq<Item>, tail: string)
    requires f == []
    ensures FirstGap(f, tail) == tail && |Write(f)| == 0 && acc + Meant(f) == acc
  {
  }

  /** The loop over the children reads a list of nodes as what they mean, whatever follows. */
  lemma ItemsTurn(s: string, pos: nat, tag: string, acc: seq<Node>, f: seq<Item>, tail: string,
                  before: Before, close: string)
    requires Stands(s, pos, f, tail, false, before, close)
    ensures ParseChildren(s, pos + |FirstGap(f, tail)|, tag, acc) ==
            ParseChildren(s, pos + |Write(f)| + |tail|, tag, acc + Meant(f))
    decreases f, 1
  {
    hide *;
    if f == [] {
      NoItems(s, pos, acc, f, tail);
    } else {
      MeantMore(acc, f);
      StandsFirst(s, pos, f, tail, false, before, close);
      if f[0].Tagged? {
        TagReads(s, Place(pos, f), f[0], false, before);
      }
      ChildTurn(s, pos, tag, acc, f, tail, before, close);
      ItemsTurn(s, After(pos, f), tag, acc + MeantOne(f[0]), f[1..], tail, Kind(f[0]), close);
      GapIsPlace(pos, f, tail);
    }
  }

  lemma GapIsPlace(pos: nat, f: seq<Item>, tail: string)
    requires f != []
    ensures pos + |FirstGap(f, tail)| == Place(pos, f) == pos + |f[0].gap|
  {
  }

  lemma MeantMore(acc: seq<Node>, f: seq<Item>)
    requires f != []
    ensures acc + Meant(f) == (acc + MeantOne(f[0])) + Meant(f[1..])
  {
  }

  // ---------- pages ----------

  /** So does the loop of Parse. */
  lemma {:induction false} PageTurn(s: string, pos: nat, acc: seq<Node>, f: seq<Item>, tail: string,
                                    before: Before, close: string)
    requires Stands(s, pos, f, tail, true, before, close)
    ensures ParseTop(s, pos + |FirstGap(f, tail)|, acc) == ParseTop(s, pos + |Write(f)| + |tail|, acc + Meant(f))
    decreases |f|
  {
    hide *;
    if f == [] {
      NoItems(s, pos, acc, f, tail);
    } else {
      MeantMore(acc, f);
      StandsFirst(s, pos, f, tail, true, before, close);
      if f[0].Tagged? {
        TagReads(s, Place(pos, f), f[0], true, before);
      }
      TopTurn(s, pos, acc, f, tail, before, close);
      PageTurn(s, After(pos, f), acc + MeantOne(f[0]), f[1..], tail, Kind(f[0]), close);
      GapIsPlace(pos, f, tail);
    }
  }

  /** The page before `close`. */
  lemma PageStart(f: seq<Item>, tail: string, close: string, s: string)
    requires Fits(f, tail, true, Start) && s == Write(f) + (tail + close) && (close != "" ==> close[0] == '<')
    ensures Parse(s) == ParseTop(s, |Write(f)| + |tail|, Meant(f))
    ensures At(s, |Write(f)| + |tail|, close)
  {
    hide *;
    AtWhole(s);
    AtSplit(s, 0, Write(f), tail + close);
    AtSplit(s, |Write(f)|, tail, close);
    StandsWhole(s, f, tail, close);
    NextStarts(s, 0, f, tail, true, Start, close);
    PageTurn(s, 0, [], f, tail, Start, close);
    assert [] + Meant(f) == Meant(f);
    ParseIs(s);
  }

  lemma StandsWhole(s: string, f: seq<Item>, tail: string, close: string)
    requires Fits(f, tail, true, Start) && At(s, 0, Write(f) + (tail + close))
    requires |s| == |Write(f)| + |tail| + |close| && (close != "" ==> close[0] == '<')
    ensures Stands(s, 0, f, tail, true, Start, close)
  {
    hide At, Fits, Write;
  }

  lemma ParseIs(s: string)
    ensures Parse(s) == ParseTop(s, SkipSpace(s, 0), [])
  {
  }

  /** However a page is written, parsing it gives the tree it means. */
  lemma ParseWritten(f: seq<Item>, tail: string, s: string)
    requires Fits(f, tail, true, Start) && s == Write(f) + tail
    ensures Parse(s) == Tree(Meant(f), |s|)
  {
    hide *;
    assert tail + "" == tail;
    PageStart(f, tail, "", s);
    TopStop(s, Meant(f));
  }

  /** Two pages with the same text mean the same tree. */
  lemma WrittenMeaning(f: seq<Item>, tail: string, g: seq<Item>, tail': string)
    requires Fits(f, tail, true, Start) && Fits(g, tail', true, Start)
    requires Write(f) + tail == Write(g) + tail'
    ensures Meant(f) == Meant(g)
  {
    ParseWritten(f, tail, Write(f) + tail);
    ParseWritten(g, tail', Write(g) + tail');
  }
}
