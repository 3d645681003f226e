/** Parsing the text of a well-formed forest gives back that forest. */
module HtmlRoundTrip {
  import opened HtmlGrammar
  import GoStrings

  // ---------- writing a forest as text ----------

  function ShowAttr(a: Attribute): string {
    " " + a.key + "=\"" + a.val + "\""
  }

  function ShowAttrs(attrs: seq<Attribute>): string {
    if attrs == [] then "" else ShowAttr(attrs[0]) + ShowAttrs(attrs[1..])
  }

  function Show(n: Node): string
    decreases n, 0
  {
    match n
    case Text(data) => data
    case Element(tag, attrs, children) =>
      "<" + tag + ShowAttrs(attrs) + ">" +
      if IsVoid(tag) then "" else ShowForest(children) + "</" + tag + ">"
  }

  function ShowForest(f: seq<Node>): string
    decreases f, 1
  {
    if f == [] then "" else Show(f[0]) + ShowForest(f[1..])
  }

  // ---------- well-formed forests ----------

  predicate PlainLower(c: char) {
    'a' <= c <= 'z' || '0' <= c <= '9' || c == '-' || c == '_'
  }

  predicate TagOk(tag: string) {
    tag != "" && forall i :: 0 <= i < |tag| ==> PlainLower(tag[i])
  }

  /** Any key the parser can produce from ASCII text; even the empty one. */
  predicate KeyOk(key: string) {
    && (forall i :: 0 <= i < |key| ==> IsKeyChar(key[i]) && !('A' <= key[i] <= 'Z'))
    && (key != "" ==> key[0] != '/')
  }

  predicate ValOk(val: string) {
    forall i :: 0 <= i < |val| ==> NotDouble(val[i])
  }

  predicate AttrsOk(attrs: seq<Attribute>) {
    forall i :: 0 <= i < |attrs| ==> KeyOk(attrs[i].key) && ValOk(attrs[i].val)
  }

  predicate TextOk(data: string) {
    data != "" && !IsSpace(data[0]) && forall i :: 0 <= i < |data| ==> NotLt(data[i])
  }

  predicate NodeOk(n: Node)
    decreases n, 0
  {
    match n
    case Text(data) => TextOk(data)
    case Element(tag, attrs, children) =>
      TagOk(tag) && AttrsOk(attrs) && (if IsVoid(tag) then children == [] else ForestOk(children))
  }

  /** Every node is well formed and no two text nodes are neighbours. */
  predicate ForestOk(f: seq<Node>)
    decreases f, 1
  {
    f == [] ||
    (NodeOk(f[0]) && ForestOk(f[1..]) && (|f| > 1 ==> !(f[0].Text? && f[1].Text?)))
  }

  // ---------- occurrences ----------

  /** Always true; it keeps the verifier from comparing characters it was not asked about. */
  predicate Here(i: int) {
    true
  }

  /** x stands in s at pos. */
  ghost predicate At(s: string, pos: nat, x: string) {
    pos + |x| <= |s| && forall i {:trigger Here(i)} :: Here(i) && 0 <= i < |x| ==> s[pos + i] == x[i]
  }

  lemma AtSplit(s: string, pos: nat, x: string, y: string)
    requires At(s, pos, x + y)
    ensures At(s, pos, x) && At(s, pos + |x|, y)
  {
    forall i | Here(i) && 0 <= i < |x| ensures s[pos + i] == x[i] {
      assert (x + y)[i] == x[i];
    }
    forall i | Here(i) && 0 <= i < |y| ensures s[pos + |x| + i] == y[i] {
      assert Here(|x| + i);
      assert (x + y)[|x| + i] == y[i];
    }
  }

  lemma AtChars(s: string, pos: nat, x: string)
    requires At(s, pos, x)
    ensures forall i {:trigger s[i]} :: pos <= i < pos + |x| ==> s[i] == x[i - pos]
    ensures s[pos..pos + |x|] == x
  {
    forall i | pos <= i < pos + |x| ensures s[i] == x[i - pos] {
      assert Here(i - pos);
    }
  }

  lemma AtWhole(s: string)
    ensures At(s, 0, s)
  {
  }

  lemma LowerKeeps(x: string)
    requires forall i :: 0 <= i < |x| ==> !('A' <= x[i] <= 'Z')
    ensures GoStrings.Lower(x) == x
  {
  }

  // ---------- attributes ----------

  lemma ValueBack(s: string, pos: nat, val: string)
    requires ValOk(val) && At(s, pos, "\"" + val + "\"")
    ensures AttrValue(s, pos) == (val, pos + |val| + 2)
  {
    AtSplit(s, pos, "\"" + val, "\"");
    AtSplit(s, pos, "\"", val);
    AtChars(s, pos, "\"");
    AtChars(s, pos + 1, val);
    AtChars(s, pos + 1 + |val|, "\"");
    ScanTo(s, pos, IsSpace, pos);
    ScanTo(s, pos + 1, NotDouble, pos + 1 + |val|);
  }

  lemma AttrBack(s: string, pos: nat, a: Attribute)
    requires KeyOk(a.key) && ValOk(a.val) && At(s, pos, a.key + "=\"" + a.val + "\"")
    ensures pos < |s| && !EndsAttrs(s, pos) && !IsSpace(s[pos])
    ensures OneAttr(s, pos) == (a, pos + |a.key| + |a.val| + 3)
  {
    hide AttrValue, At, GoStrings.Lower;
    var value := "\"" + a.val + "\"";
    assert a.key + "=\"" + a.val + "\"" == a.key + ("=" + value);
    AtSplit(s, pos, a.key, "=" + value);
    AtSplit(s, pos + |a.key|, "=", value);
    AtChars(s, pos, a.key);
    AtChars(s, pos + |a.key|, "=");
    ScanTo(s, pos, IsKeyChar, pos + |a.key|);
    LowerKeeps(a.key);
    ValueBack(s, pos + |a.key| + 1, a.val);
  }

  /** One turn of the attribute loop. */
  lemma AttrTurn(s: string, pos: nat, a: Attribute, acc: seq<Attribute>)
    requires KeyOk(a.key) && ValOk(a.val) && At(s, pos, ShowAttr(a))
    ensures Attrs(s, pos, acc) == Attrs(s, pos + |ShowAttr(a)|, acc + [a])
  {
    hide At, OneAttr, KeyOk, ValOk;
    var body := a.key + "=\"" + a.val + "\"";
    assert ShowAttr(a) == " " + body;
    AtSplit(s, pos, " ", body);
    AtChars(s, pos, " ");
    AttrBack(s, pos + 1, a);
    ScanTo(s, pos, IsSpace, pos + 1);
  }

  lemma AttrsStop(s: string, pos: nat, acc: seq<Attribute>)
    requires At(s, pos, ">")
    ensures Attrs(s, pos, acc) == (acc, pos)
  {
    AtChars(s, pos, ">");
  }

  lemma {:induction false} AttrsBack(s: string, pos: nat, attrs: seq<Attribute>, acc: seq<Attribute>)
    requires AttrsOk(attrs) && At(s, pos, ShowAttrs(attrs) + ">")
    ensures Attrs(s, pos, acc) == (acc + attrs, pos + |ShowAttrs(attrs)|)
    decreases |attrs|
  {
    hide Attrs, At, ShowAttr, KeyOk, ValOk;
    if attrs == [] {
      assert ShowAttrs(attrs) + ">" == ">";
      AttrsStop(s, pos, acc);
      assert acc + attrs == acc;
    } else {
      var first, rest := ShowAttr(attrs[0]), ShowAttrs(attrs[1..]) + ">";
      var next := pos + |first|;
      assert At(s, pos, first) && At(s, next, rest) by {
        assert ShowAttrs(attrs) + ">" == first + rest;
        AtSplit(s, pos, first, rest);
      }
      assert Attrs(s, pos, acc) == Attrs(s, next, acc + [attrs[0]]) by {
        AttrTurn(s, pos, attrs[0], acc);
      }
      AttrsBack(s, next, attrs[1..], acc + [attrs[0]]);
      assert acc + [attrs[0]] + attrs[1..] == acc + attrs;
    }
  }

  // ---------- elements ----------

  /** What follows the children of an element. */
  function ShowClose(tag: string): string {
    "</" + tag + ">"
  }

  /** What precedes them. */
  function ShowOpen(tag: string, attrs: seq<Attribute>): string {
    "<" + (tag + (ShowAttrs(attrs) + ">"))
  }

  lemma TagChars(tag: string)
    requires TagOk(tag)
    ensures forall i :: 0 <= i < |tag| ==> IsNameChar(tag[i])
    ensures tag != "" && GoStrings.Lower(tag) == tag && tag[0] != '/' && tag[0] != '!'
  {
    LowerKeeps(tag);
  }

  lemma AttrsStart(attrs: seq<Attribute>)
    ensures var x := ShowAttrs(attrs) + ">"; |x| > 0 && (x[0] == ' ' || x[0] == '>')
  {
  }

  /** The tag name of an opening tag is read back. */
  lemma NameBack(s: string, pos: nat, tag: string, attrs: seq<Attribute>)
    requires TagOk(tag) && At(s, pos, ShowOpen(tag, attrs))
    ensures pos + 1 + |tag| < |s| && s[pos] == '<' && s[pos + 1] == tag[0]
    ensures Scan(s, pos + 1, IsNameChar) == pos + 1 + |tag| && s[pos + 1..pos + 1 + |tag|] == tag
    ensures At(s, pos + 1 + |tag|, ShowAttrs(attrs) + ">")
  {
    hide At, TagOk;
    var rest := ShowAttrs(attrs) + ">";
    AtSplit(s, pos, "<", tag + rest);
    AtSplit(s, pos + 1, tag, rest);
    AtChars(s, pos, "<");
    AtChars(s, pos + 1, tag);
    AtChars(s, pos + 1 + |tag|, rest);
    TagChars(tag);
    AttrsStart(attrs);
    var end := pos + 1 + |tag|;
    assert s[end] == rest[0];
    ScanTo(s, pos + 1, IsNameChar, end);
  }

  lemma TagEndBack(s: string, pos: nat, attrs: seq<Attribute>)
    requires AttrsOk(attrs) && At(s, pos, ShowAttrs(attrs) + ">")
    ensures Attrs(s, pos, []) == (attrs, pos + |ShowAttrs(attrs)|)
    ensures TagEnd(s, pos + |ShowAttrs(attrs)|) == pos + |ShowAttrs(attrs)| + 1
  {
    hide At, AttrsOk, Attrs, ShowAttrs;
    AttrsBack(s, pos, attrs, []);
    assert [] + attrs == attrs;
    AtSplit(s, pos, ShowAttrs(attrs), ">");
    AtChars(s, pos + |ShowAttrs(attrs)|, ">");
  }

  /** The opening tag is read back, whatever follows it. */
  lemma OpenBack(s: string, pos: nat, tag: string, attrs: seq<Attribute>)
    requires TagOk(tag) && AttrsOk(attrs) && At(s, pos, ShowOpen(tag, attrs))
    ensures pos + 1 < |s| && s[pos] == '<' && s[pos + 1] == tag[0] && s[pos + 1] != '/' && s[pos + 1] != '!'
    ensures var end := Scan(s, pos + 1, IsNameChar);
            && end == pos + 1 + |tag| <= |s|
            && s[pos + 1..end] == tag == GoStrings.Lower(tag)
            && Attrs(s, end, []).0 == attrs
            && TagEnd(s, Attrs(s, end, []).1) == pos + |ShowOpen(tag, attrs)|
  {
    hide At, AttrsOk, Attrs, TagEnd, GoStrings.Lower;
    TagChars(tag);
    NameBack(s, pos, tag, attrs);
    TagEndBack(s, pos + 1 + |tag|, attrs);
  }

  lemma ShowElement(tag: string, attrs: seq<Attribute>, children: seq<Node>)
    ensures var n := Element(tag, attrs, children);
            Show(n) == if IsVoid(tag) then ShowOpen(tag, attrs)
                       else ShowOpen(tag, attrs) + (ShowForest(children) + ShowClose(tag))
  {
    var open := "<" + tag + ShowAttrs(attrs) + ">";
    assert open == ShowOpen(tag, attrs);
    assert ShowForest(children) + "</" + tag + ">" == ShowForest(children) + ShowClose(tag);
    assert open + "" == open;
  }

  lemma VoidFrom(s: string, pos: nat, tag: string, attrs: seq<Attribute>)
    requires TagOk(tag) && AttrsOk(attrs) && IsVoid(tag) && At(s, pos, ShowOpen(tag, attrs))
    ensures pos < |s| && s[pos] == '<'
    ensures ParseElement(s, pos) == Parsed(Element(tag, attrs, []), pos + |ShowOpen(tag, attrs)|)
  {
    OpenBack(s, pos, tag, attrs);
  }

  lemma ElementFrom(s: string, pos: nat, tag: string, attrs: seq<Attribute>, nodes: seq<Node>, at: nat)
    requires TagOk(tag) && AttrsOk(attrs) && !IsVoid(tag) && At(s, pos, ShowOpen(tag, attrs))
    requires ParseChildren(s, pos + |ShowOpen(tag, attrs)|, tag, []) == Forest(nodes, at)
    requires At(s, at, ShowClose(tag))
    ensures pos < |s| && s[pos] == '<'
    ensures ParseElement(s, pos) == Parsed(Element(tag, attrs, nodes), at + |ShowClose(tag)|)
  {
    hide At, AttrsOk, TagOk, Attrs, TagEnd, ParseChildren, IsVoid;
    OpenBack(s, pos, tag, attrs);
    CloseBack(s, at, tag);
  }

  lemma ElementBack(s: string, pos: nat, n: Node)
    requires n.Element? && NodeOk(n) && At(s, pos, Show(n))
    ensures pos < |s| && s[pos] == '<'
    ensures ParseElement(s, pos) == Parsed(n, pos + |Show(n)|)
    decreases n, 0
  {
    hide ParseElement, ParseChildren, At, ShowOpen, ShowClose, Show, ShowForest, IsVoid;
    var open := ShowOpen(n.tag, n.attrs);
    ShowElement(n.tag, n.attrs, n.children);
    if IsVoid(n.tag) {
      VoidFrom(s, pos, n.tag, n.attrs);
    } else {
      var text, close := ShowForest(n.children), ShowClose(n.tag);
      AtSplit(s, pos, open, text + close);
      ChildrenBack(s, pos + |open|, n.tag, [], n.children);
      assert [] + n.children == n.children;
      AtSplit(s, pos + |open|, text, close);
      ElementFrom(s, pos, n.tag, n.attrs, n.children, pos + |open| + |text|);
    }
  }

  lemma CloseBack(s: string, at: nat, tag: string)
    requires TagOk(tag) && At(s, at, ShowClose(tag))
    ensures Match(s, at, "</") && Match(s, at, "</" + tag)
    ensures PastGt(s, at + 2) == at + |tag| + 3
  {
    AtSplit(s, at, "</" + tag, ">");
    AtSplit(s, at, "</", tag);
    AtChars(s, at, "</");
    AtChars(s, at, "</" + tag);
    AtChars(s, at + 2, tag);
    AtChars(s, at + 2 + |tag|, ">");
    ScanTo(s, at + 2, NotGt, at + 2 + |tag|);
  }

  /** The loops neither skip a space here nor see a closing tag, a comment or a document type. */
  ghost predicate PlainStart(s: string, pos: nat) {
    && pos < |s| && SkipSpace(s, pos) == pos
    && (Match(s, pos, "<") <==> s[pos] == '<')
    && !Match(s, pos, "<!--") && !Match(s, pos, "<!DOCTYPE") && !Match(s, pos, "<!doctype")
    && forall tag :: !Match(s, pos, "</" + tag)
  }

  /** A match fixes the first two bytes. */
  lemma FirstTwo(s: string, pos: nat, x: string)
    requires pos < |s| && |x| > 1 && Match(s, pos, x)
    ensures pos + 1 < |s| && s[pos] == x[0] && s[pos + 1] == x[1]
  {
    assert s[pos] == s[pos..pos + |x|][0];
    assert s[pos + 1] == s[pos..pos + |x|][1];
  }

  lemma PlainStartFrom(s: string, pos: nat)
    requires pos < |s| && !IsSpace(s[pos])
    requires s[pos] == '<' ==> pos + 1 < |s| && s[pos + 1] != '/' && s[pos + 1] != '!'
    ensures PlainStart(s, pos)
  {
    ScanTo(s, pos, IsSpace, pos);
    assert s[pos..pos + 1] == [s[pos]];
    forall tag: string ensures !Match(s, pos, "</" + tag) {
      if Match(s, pos, "</" + tag) {
        FirstTwo(s, pos, "</" + tag);
      }
    }
    if Match(s, pos, "<!--") { FirstTwo(s, pos, "<!--"); }
    if Match(s, pos, "<!DOCTYPE") { FirstTwo(s, pos, "<!DOCTYPE"); }
    if Match(s, pos, "<!doctype") { FirstTwo(s, pos, "<!doctype"); }
  }

  lemma NodeStart(s: string, pos: nat, n: Node)
    requires NodeOk(n) && At(s, pos, Show(n))
    ensures PlainStart(s, pos) && (s[pos] == '<' <==> n.Element?)
  {
    if n.Element? {
      ShowElement(n.tag, n.attrs, n.children);
      if !IsVoid(n.tag) {
        AtSplit(s, pos, ShowOpen(n.tag, n.attrs), ShowForest(n.children) + ShowClose(n.tag));
      }
      OpenBack(s, pos, n.tag, n.attrs);
    } else {
      AtChars(s, pos, n.data);
    }
    PlainStartFrom(s, pos);
  }

  /** A text node ends where the next node, a closing tag or the end of the text begins. */
  lemma TextBack(s: string, pos: nat, data: string)
    requires TextOk(data) && At(s, pos, data)
    requires pos + |data| == |s| || s[pos + |data|] == '<'
    ensures Scan(s, pos, NotLt) == pos + |data| && s[pos..pos + |data|] == data
  {
    AtChars(s, pos, data);
    ScanTo(s, pos, NotLt, pos + |data|);
  }

  /** What follows a node of a well-formed forest: no space, and '<' unless it is text. */
  ghost predicate CleanStart(s: string, pos: nat, f: seq<Node>) {
    && SkipSpace(s, pos) == pos
    && (f == [] || f[0].Element? ==> pos == |s| || (pos < |s| && s[pos] == '<'))
  }

  lemma NextNode(s: string, pos: nat, f: seq<Node>, close: string)
    requires f != [] && ForestOk(f) && At(s, pos, ShowForest(f) + close)
    ensures At(s, pos, Show(f[0])) && At(s, pos + |Show(f[0])|, ShowForest(f[1..]) + close)
    ensures CleanStart(s, pos, f) && PlainStart(s, pos) && SkipSpace(s, pos) == pos
    ensures s[pos] == '<' <==> f[0].Element?
  {
    hide At, NodeOk, Show, SkipSpace, Match;
    assert ShowForest(f) + close == Show(f[0]) + (ShowForest(f[1..]) + close);
    AtSplit(s, pos, Show(f[0]), ShowForest(f[1..]) + close);
    NodeStart(s, pos, f[0]);
  }

  lemma AfterNode(s: string, pos: nat, f: seq<Node>, close: string)
    requires ForestOk(f) && At(s, pos, ShowForest(f) + close)
    requires if close == "" then pos + |ShowForest(f)| == |s| else close[0] == '<'
    ensures CleanStart(s, pos, f) && SkipSpace(s, pos) == pos
    ensures f == [] || f[0].Element? ==> pos == |s| || (pos < |s| && s[pos] == '<')
  {
    if f != [] {
      NextNode(s, pos, f, close);
    } else {
      assert ShowForest(f) + close == close;
      AtChars(s, pos, close);
      ScanTo(s, pos, IsSpace, pos);
    }
  }

  lemma NotClosing(n: Node)
    requires NodeOk(n)
    ensures !IsClosingTag(n)
  {
  }

  /** The two loops see at pos a text node that ends at end. */
  ghost predicate SeesText(s: string, pos: nat, end: nat) {
    PlainStart(s, pos) && s[pos] != '<' && pos < end == Scan(s, pos, NotLt)
  }

  lemma TextTurn(s: string, pos: nat, tag: string, acc: seq<Node>, end: nat)
    requires SeesText(s, pos, end)
    ensures ParseChildren(s, pos, tag, acc) == ParseChildren(s, end, tag, acc + [Text(s[pos..end])])
  {
    hide ParseElement, CommentEnd, IsClosingTag, IsSpace;
  }

  lemma TopTextTurn(s: string, pos: nat, acc: seq<Node>, end: nat)
    requires SeesText(s, pos, end)
    ensures ParseTop(s, pos, acc) == ParseTop(s, end, acc + [Text(s[pos..end])])
  {
    hide ParseElement, CommentEnd, CommentCloses, IsSpace, PastGt;
  }

  /** They see an element n that ends at next, with no space after it. */
  ghost predicate SeesElement(s: string, pos: nat, n: Node, next: nat) {
    && PlainStart(s, pos) && s[pos] == '<' && !IsClosingTag(n)
    && ParseElement(s, pos) == Parsed(n, next) && SkipSpace(s, next) == next
  }

  lemma ElementTurn(s: string, pos: nat, tag: string, acc: seq<Node>, n: Node, next: nat)
    requires SeesElement(s, pos, n, next)
    ensures ParseChildren(s, pos, tag, acc) == ParseChildren(s, next, tag, acc + [n])
  {
    hide ParseElement, CommentEnd, IsClosingTag, IsSpace;
  }

  lemma TopElementTurn(s: string, pos: nat, acc: seq<Node>, n: Node, next: nat)
    requires SeesElement(s, pos, n, next)
    ensures ParseTop(s, pos, acc) == ParseTop(s, next, acc + [n])
  {
    hide ParseElement, CommentEnd, CommentCloses, IsSpace, PastGt;
  }

  /** One turn of either loop on the first node of a forest f. */
  lemma NodeTurn(s: string, pos: nat, tag: string, acc: seq<Node>, f: seq<Node>, close: string)
    requires f != [] && ForestOk(f) && At(s, pos, ShowForest(f) + close)
    requires if close == "" then pos + |ShowForest(f)| == |s| else close[0] == '<'
    requires f[0].Element? ==> pos < |s| && s[pos] == '<' && ParseElement(s, pos) == Parsed(f[0], pos + |Show(f[0])|)
    ensures var next := pos + |Show(f[0])|;
            && NodeOk(f[0]) && ForestOk(f[1..]) && At(s, next, ShowForest(f[1..]) + close)
            && |ShowForest(f)| == |Show(f[0])| + |ShowForest(f[1..])|
            && (close == "" ==> next + |ShowForest(f[1..])| == |s|)
            && ParseChildren(s, pos, tag, acc) == ParseChildren(s, next, tag, acc + [f[0]])
            && ParseTop(s, pos, acc) == ParseTop(s, next, acc + [f[0]])
  {
    hide At, ParseElement, ParseTop, ParseChildren, CleanStart, Match, IsClosingTag;
    var n, next := f[0], pos + |Show(f[0])|;
    NextNode(s, pos, f, close);
    AfterNode(s, next, f[1..], close);
    if n.Element? {
      NotClosing(n);
      ElementTurn(s, pos, tag, acc, n, next);
      TopElementTurn(s, pos, acc, n, next);
    } else {
      TextBack(s, pos, n.data);
      TextTurn(s, pos, tag, acc, next);
      TopTextTurn(s, pos, acc, next);
    }
  }

  lemma ChildrenStop(s: string, pos: nat, tag: string, acc: seq<Node>)
    requires TagOk(tag) && At(s, pos, ShowClose(tag))
    ensures ParseChildren(s, pos, tag, acc) == Forest(acc, pos)
  {
    CloseBack(s, pos, tag);
  }

  lemma ChildrenBack(s: string, pos: nat, tag: string, acc: seq<Node>, f: seq<Node>)
    requires TagOk(tag) && ForestOk(f) && At(s, pos, ShowForest(f) + ShowClose(tag))
    ensures ParseChildren(s, pos, tag, acc) == Forest(acc + f, pos + |ShowForest(f)|)
    decreases f, 1
  {
    var close := ShowClose(tag);
    assert close[0] == '<';
    if f == [] {
      assert ShowForest(f) + close == close;
      ChildrenStop(s, pos, tag, acc);
      assert acc + f == acc;
    } else {
      FirstChild(s, pos, f, close);
      ChildrenTurn(s, pos, tag, acc, f);
    }
  }

  /** The induction step: read the first child, then the others. */
  lemma ChildrenTurn(s: string, pos: nat, tag: string, acc: seq<Node>, f: seq<Node>)
    requires f != [] && TagOk(tag) && ForestOk(f) && At(s, pos, ShowForest(f) + ShowClose(tag))
    requires NodeOk(f[0]) && At(s, pos, Show(f[0])) && ShowClose(tag) != "" && ShowClose(tag)[0] == '<'
    ensures ParseChildren(s, pos, tag, acc) == Forest(acc + f, pos + |ShowForest(f)|)
    decreases f, 0
  {
    hide *;
    var n, next := f[0], pos + |Show(f[0])|;
    if n.Element? {
      ElementBack(s, pos, n);
    }
    NodeTurn(s, pos, tag, acc, f, ShowClose(tag));
    ChildrenBack(s, next, tag, acc + [n], f[1..]);
    assert acc + [n] + f[1..] == acc + f;
  }

  lemma FirstChild(s: string, pos: nat, f: seq<Node>, close: string)
    requires f != [] && ForestOk(f) && At(s, pos, ShowForest(f) + close)
    ensures NodeOk(f[0]) && At(s, pos, Show(f[0]))
  {
    NextNode(s, pos, f, close);
  }

  lemma TopStop(s: string, acc: seq<Node>)
    ensures ParseTop(s, |s|, acc) == Tree(acc, |s|)
  {
  }

  lemma {:induction false} TopBack(s: string, pos: nat, acc: seq<Node>, f: seq<Node>)
    requires ForestOk(f) && At(s, pos, ShowForest(f) + "") && pos + |ShowForest(f)| == |s|
    ensures ParseTop(s, pos, acc) == Tree(acc + f, |s|)
    decreases |f|
  {
    hide At, ParseElement, ParseTop, Show;
    if f == [] {
      assert ParseTop(s, pos, acc) == Tree(acc, pos) by { TopStop(s, acc); }
      assert acc + f == acc;
    } else {
      var n, next := f[0], pos + |Show(f[0])|;
      if n.Element? {
        NextNode(s, pos, f, "");
        ElementBack(s, pos, n);
      }
      NodeTurn(s, pos, "", acc, f, "");
      TopBack(s, next, acc + [n], f[1..]);
      assert acc + [n] + f[1..] == acc + f;
    }
  }

  /** The round trip, to any depth and width. */
  lemma ParseShow(f: seq<Node>)
    requires ForestOk(f)
    ensures Parse(ShowForest(f)) == Tree(f, |ShowForest(f)|)
  {
    var s := ShowForest(f);
    AtWhole(s);
    assert s + "" == s;
    AfterNode(s, 0, f, "");
    TopBack(s, 0, [], f);
    assert [] + f == f;
  }

  /** Two well-formed forests with the same text are the same forest. */
  lemma ShowInjective(f: seq<Node>, g: seq<Node>)
    requires ForestOk(f) && ForestOk(g) && ShowForest(f) == ShowForest(g)
    ensures f == g
  {
    ParseShow(f);
    ParseShow(g);
  }
}
