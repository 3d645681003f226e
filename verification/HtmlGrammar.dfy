/** surf's HTML parser as functions of the text and a cursor. A string holds one char per
    byte. The cursor may come to rest one past the end (skipUntil followed by an increment);
    taking a suffix of the text there is the run-time panic modelled by Crash. */
module HtmlGrammar {
  import GoStrings

  datatype Attribute = Attribute(key: string, val: string)

  datatype Node =
    | Text(data: string)
    | Element(tag: string, attrs: seq<Attribute>, children: seq<Node>)

  // ---------- bytes ----------

  /** unicode.IsSpace on a byte. */
  predicate IsSpace(c: char) {
    var b := c as int;
    9 <= b <= 13 || b == 32 || b == 0x85 || b == 0xA0
  }

  /** unicode.IsLetter on a byte. */
  predicate IsLetter(c: char) {
    var b := c as int;
    || 'a' <= c <= 'z' || 'A' <= c <= 'Z'
    || b == 0xAA || b == 0xB5 || b == 0xBA
    || (0xC0 <= b <= 0xFF && b != 0xD7 && b != 0xF7)
  }

  predicate IsNameChar(c: char) {
    IsLetter(c) || '0' <= c <= '9' || c == '-' || c == '_'
  }

  predicate IsKeyChar(c: char) {
    !IsSpace(c) && c != '=' && c != '>'
  }

  predicate IsBareChar(c: char) {
    !IsSpace(c) && c != '>'
  }

  predicate NotLt(c: char) {
    c != '<'
  }

  predicate NotGt(c: char) {
    c != '>'
  }

  predicate NotDouble(c: char) {
    c != '"'
  }

  predicate NotSingle(c: char) {
    c != '\''
  }

  // ---------- scanning ----------

  /** The first position from pos on whose byte fails p, or the end. */
  function Scan(s: string, pos: nat, p: char -> bool): (end: nat)
    ensures pos <= end
    ensures pos <= |s| ==> end <= |s|
    ensures pos > |s| ==> end == pos
    ensures end < |s| ==> !p(s[end])
    ensures forall i :: pos <= i < end ==> p(s[i])
    decreases |s| - pos
  {
    if pos < |s| && p(s[pos]) then Scan(s, pos + 1, p) else pos
  }

  lemma {:induction false} ScanTo(s: string, pos: nat, p: char -> bool, end: nat)
    requires pos <= end <= |s|
    requires forall i :: pos <= i < end ==> p(s[i])
    requires end < |s| ==> !p(s[end])
    ensures Scan(s, pos, p) == end
  {
    if pos < end {
      assert !(Scan(s, pos, p) < end);
    }
  }

  predicate Match(s: string, pos: nat, x: string)
    requires pos <= |s|
  {
    pos + |x| <= |s| && s[pos..pos + |x|] == x
  }

  lemma MatchLt(s: string, pos: nat)
    requires pos <= |s|
    ensures Match(s, pos, "<") <==> pos < |s| && s[pos] == '<'
  {
    assert pos < |s| ==> s[pos..pos + 1] == [s[pos]];
  }

  function SkipSpace(s: string, pos: nat): (end: nat)
    ensures pos <= end
  {
    Scan(s, pos, IsSpace)
  }

  /** skipUntil('>') and the increment after it. */
  function PastGt(s: string, pos: nat): (end: nat)
    ensures pos < end
    ensures pos <= |s| ==> end <= |s| + 1
  {
    Scan(s, pos, NotGt) + 1
  }

  // ---------- tags ----------

  function AttrValue(s: string, pos: nat): (r: (string, nat))
    requires pos <= |s|
    ensures pos <= r.1 <= |s|
  {
    var start := SkipSpace(s, pos);
    if start >= |s| then ("", start)
    else if s[start] == '"' || s[start] == '\'' then
      var end := Scan(s, start + 1, if s[start] == '"' then NotDouble else NotSingle);
      (s[start + 1..end], if end < |s| then end + 1 else end)
    else
      var end := Scan(s, start, IsBareChar);
      (s[start..end], end)
  }

  function OneAttr(s: string, pos: nat): (r: (Attribute, nat))
    requires pos < |s| && !IsSpace(s[pos]) && s[pos] != '>'
    ensures pos < r.1 <= |s|
  {
    var end := Scan(s, pos, IsKeyChar);
    if end < |s| && s[end] == '=' then
      var (val, next) := AttrValue(s, end + 1);
      (Attribute(GoStrings.Lower(s[pos..end]), val), next)
    else
      (Attribute(GoStrings.Lower(s[pos..end]), ""), end)
  }

  predicate EndsAttrs(s: string, pos: nat) {
    pos >= |s| || s[pos] == '>' || s[pos] == '/'
  }

  function Attrs(s: string, pos: nat, acc: seq<Attribute>): (r: (seq<Attribute>, nat))
    requires pos <= |s|
    ensures pos <= r.1 <= |s|
    decreases |s| - pos
  {
    if EndsAttrs(s, pos) then (acc, pos)
    else
      var start := SkipSpace(s, pos);
      if EndsAttrs(s, start) then (acc, start)
      else
        var (attr, next) := OneAttr(s, start);
        Attrs(s, next, acc + [attr])
  }

  /** The optional slash and the optional closing bracket of an opening tag. */
  function TagEnd(s: string, pos: nat): (end: nat)
    requires pos <= |s|
    ensures pos <= end <= |s|
  {
    var slash := if pos < |s| && s[pos] == '/' then pos + 1 else pos;
    if slash < |s| && s[slash] == '>' then slash + 1 else slash
  }

  /** Void elements: no children and no closing tag. */
  predicate IsVoid(tag: string) {
    tag in {"area", "base", "br", "col", "embed", "hr", "img", "input",
            "link", "meta", "param", "source", "track", "wbr"}
  }

  /** parseComment from its opening mark: the cursor after the mark that ends it. */
  function CommentEnd(s: string, pos: nat): (r: nat)
    requires pos <= |s| && Match(s, pos, "<!--")
    ensures pos < r <= |s|
  {
    var end := FindCommentEnd(s, pos + 4);
    if end + 2 < |s| then end + 3 else |s|
  }

  predicate CommentCloses(s: string, pos: nat)
    requires pos <= |s| && Match(s, pos, "<!--")
  {
    FindCommentEnd(s, pos + 4) + 2 < |s|
  }

  function FindCommentEnd(s: string, pos: nat): (r: nat)
    requires pos <= |s|
    ensures pos <= r <= |s|
    ensures r + 2 < |s| ==> s[r] == '-' && s[r + 1] == '-' && s[r + 2] == '>'
    decreases |s| - pos
  {
    if pos + 2 < |s| && !(s[pos] == '-' && s[pos + 1] == '-' && s[pos + 2] == '>')
    then FindCommentEnd(s, pos + 1) else pos
  }

  // ---------- elements ----------

  /** The result of parsing one element: a closing tag met where an element was expected
      is returned as an element with the attribute "/". */
  datatype ElementResult = Parsed(node: Node, pos: nat) | Crash

  datatype ForestResult = Forest(nodes: seq<Node>, pos: nat) | ForestCrash

  predicate IsClosingTag(n: Node) {
    n.Element? && exists i :: 0 <= i < |n.attrs| && n.attrs[i].key == "/"
  }

  function ParseElement(s: string, pos: nat): (r: ElementResult)
    requires pos < |s| && s[pos] == '<'
    ensures r.Parsed? ==> r.node.Element? && pos < r.pos <= |s| + 1
    decreases |s| + 1 - pos, 0
  {
    if pos + 1 < |s| && s[pos + 1] == '/' then
      var end := Scan(s, pos + 2, IsNameChar);
      Parsed(Element(s[pos + 2..end], [Attribute("/", "")], []), PastGt(s, end))
    else
      var end := Scan(s, pos + 1, IsNameChar);
      var tag := GoStrings.Lower(s[pos + 1..end]);
      var (attrs, next) := Attrs(s, end, []);
      var inside := TagEnd(s, next);
      if IsVoid(tag) then Parsed(Element(tag, attrs, []), inside)
      else
        match ParseChildren(s, inside, tag, [])
        case ForestCrash => Crash
        case Forest(nodes, at) =>
          if at > |s| then Crash
          else if Match(s, at, "</") then Parsed(Element(tag, attrs, nodes), PastGt(s, at + 2))
          else Parsed(Element(tag, attrs, nodes), at)
  }

  /** The loop over an element's children, after acc. */
  function ParseChildren(s: string, pos: nat, tag: string, acc: seq<Node>): (r: ForestResult)
    ensures r.Forest? ==> pos <= r.pos && (pos <= |s| ==> r.pos <= |s| + 1)
    decreases |s| + 1 - pos, 1
  {
    if pos >= |s| || Match(s, pos, "</" + tag) then Forest(acc, pos)
    else
      var at := SkipSpace(s, pos);
      if Match(s, at, "<!--") then
        ParseChildren(s, CommentEnd(s, at), tag, acc)
      else if Match(s, at, "<") then
        match ParseElement(s, at)
        case Crash => ForestCrash
        case Parsed(node, next) =>
          if IsClosingTag(node) then Forest(acc, next)
          else ParseChildren(s, SkipSpace(s, next), tag, acc + [node])
      else
        var end := Scan(s, at, NotLt);
        ParseChildren(s, end, tag, if at < end then acc + [Text(s[at..end])] else acc)
  }

  datatype Outcome = Tree(children: seq<Node>, end: nat) | UnclosedComment | Panic

  /** The loop of Parse, after the root's children acc. */
  function ParseTop(s: string, pos: nat, acc: seq<Node>): (r: Outcome)
    decreases |s| + 1 - pos
  {
    if pos >= |s| then Tree(acc, pos)
    else if Match(s, pos, "<!DOCTYPE") || Match(s, pos, "<!doctype") then
      ParseTop(s, SkipSpace(s, PastGt(s, pos)), acc)
    else if Match(s, pos, "<!--") then
      if CommentCloses(s, pos) then ParseTop(s, CommentEnd(s, pos), acc) else UnclosedComment
    else if Match(s, pos, "<") then
      match ParseElement(s, pos)
      case Crash => Panic
      case Parsed(node, next) => ParseTop(s, SkipSpace(s, next), acc + [node])
    else
      var end := Scan(s, pos, NotLt);
      ParseTop(s, end, if pos < end then acc + [Text(s[pos..end])] else acc)
  }

  function Parse(s: string): Outcome {
    ParseTop(s, SkipSpace(s, 0), [])
  }
}
