/** surf's parser as it runs: one mutable cursor over the text, nodes linked as they are
    found. Every method computes the function of the same name in HtmlGrammar. */
module HtmlParsing {
  import opened HtmlGrammar
  import GoStrings
  import opened HtmlNodes

  /** One turn of the attribute loop. */
  lemma AttrsTurn(s: string, pos: nat, acc: seq<Attribute>)
    requires pos <= |s| && !EndsAttrs(s, pos)
    ensures var start := SkipSpace(s, pos);
            if EndsAttrs(s, start) then Attrs(s, pos, acc) == (acc, start) == Attrs(s, start, acc)
            else Attrs(s, pos, acc) == Attrs(s, OneAttr(s, start).1, acc + [OneAttr(s, start).0])
  {
  }

  lemma AttrsDone(s: string, pos: nat, acc: seq<Attribute>)
    requires pos <= |s| && EndsAttrs(s, pos)
    ensures Attrs(s, pos, acc) == (acc, pos)
  {
  }

  class HtmlParser {
    const s: string
    var pos: nat

    constructor (s: string)
      ensures this.s == s && pos == 0
    {
      this.s := s;
      pos := 0;
    }

    /** p.match; the caller has checked that the suffix exists. */
    predicate Sees(x: string)
      requires pos <= |s|
      reads this
    {
      Match(s, pos, x)
    }

    method SkipWhitespace()
      modifies this
      ensures pos == SkipSpace(s, old(pos))
    {
      while pos < |s| && IsSpace(s[pos])
        invariant Scan(s, pos, IsSpace) == Scan(s, old(pos), IsSpace)
      {
        pos := pos + 1;
      }
    }

    /** skipUntil('>'), the only byte the parser ever skips to, and the increment after it. */
    method SkipPastGt()
      modifies this
      ensures pos == PastGt(s, old(pos))
    {
      while pos < |s| && s[pos] != '>'
        invariant Scan(s, pos, NotGt) == Scan(s, old(pos), NotGt)
      {
        pos := pos + 1;
      }
      pos := pos + 1;
    }

    method ParseTagName() returns (name: string)
      requires pos <= |s|
      modifies this
      ensures pos == Scan(s, old(pos), IsNameChar) && name == s[old(pos)..pos]
    {
      var start := pos;
      while pos < |s| && IsNameChar(s[pos])
        invariant start <= pos <= |s|
        invariant Scan(s, pos, IsNameChar) == Scan(s, start, IsNameChar)
      {
        pos := pos + 1;
      }
      name := s[start..pos];
    }

    method ParseAttributeName() returns (name: string)
      requires pos <= |s|
      modifies this
      ensures pos == Scan(s, old(pos), IsKeyChar) && name == s[old(pos)..pos]
    {
      var start := pos;
      while pos < |s| && IsKeyChar(s[pos])
        invariant start <= pos <= |s|
        invariant Scan(s, pos, IsKeyChar) == Scan(s, start, IsKeyChar)
      {
        pos := pos + 1;
      }
      name := s[start..pos];
    }

    method ParseAttributeValue() returns (val: string)
      requires pos <= |s|
      modifies this
      ensures (val, pos) == AttrValue(s, old(pos))
    {
      SkipWhitespace();
      if pos >= |s| {
        return "";
      }
      var quote := s[pos];
      if quote == '"' || quote == '\'' {
        pos := pos + 1;
        var start := pos;
        SkipQuoted(quote);
        val := s[start..pos];
        if pos < |s| {
          pos := pos + 1;
        }
      } else {
        var start := pos;
        SkipBare();
        val := s[start..pos];
      }
    }

    method SkipQuoted(quote: char)
      requires pos <= |s| && (quote == '"' || quote == '\'')
      modifies this
      ensures pos == Scan(s, old(pos), if quote == '"' then NotDouble else NotSingle)
    {
      ghost var inside := if quote == '"' then NotDouble else NotSingle;
      while pos < |s| && s[pos] != quote
        invariant Scan(s, pos, inside) == Scan(s, old(pos), inside)
      {
        pos := pos + 1;
      }
    }

    method SkipBare()
      requires pos <= |s|
      modifies this
      ensures pos == Scan(s, old(pos), IsBareChar)
    {
      while pos < |s| && IsBareChar(s[pos])
        invariant Scan(s, pos, IsBareChar) == Scan(s, old(pos), IsBareChar)
      {
        pos := pos + 1;
      }
    }

    method ParseText() returns (text: string)
      requires pos <= |s|
      modifies this
      ensures pos == Scan(s, old(pos), NotLt) && text == s[old(pos)..pos]
    {
      var start := pos;
      while pos < |s| && s[pos] != '<'
        invariant start <= pos <= |s|
        invariant Scan(s, pos, NotLt) == Scan(s, start, NotLt)
      {
        pos := pos + 1;
      }
      text := s[start..pos];
    }

    method ParseComment() returns (closed: bool)
      requires pos <= |s| && Sees("<!--")
      modifies this
      ensures closed == CommentCloses(s, old(pos)) && pos == CommentEnd(s, old(pos))
    {
      assert pos + 4 <= |s|;
      hide Match;
      pos := pos + 4;
      while pos + 2 < |s|
        invariant pos <= |s|
        invariant FindCommentEnd(s, pos) == FindCommentEnd(s, old(pos) + 4)
      {
        if s[pos] == '-' && s[pos + 1] == '-' && s[pos + 2] == '>' {
          pos := pos + 3;
          return true;
        }
        pos := pos + 1;
      }
      pos := |s|;
      return false;
    }

    method ParseAttribute() returns (attr: Attribute)
      requires pos < |s| && !IsSpace(s[pos]) && s[pos] != '>'
      modifies this
      ensures (attr, pos) == OneAttr(s, old(pos))
    {
      hide AttrValue;
      var key := ParseAttributeName();
      var val := "";
      if pos < |s| && s[pos] == '=' {
        pos := pos + 1;
        val := ParseAttributeValue();
      }
      attr := Attribute(GoStrings.Lower(key), val);
    }

    method ParseAttributes(node: HtmlNode)
      requires pos <= |s| && node.Valid() && !node.isText
      modifies this, node`attrs, node`tree
      ensures node.Valid()
      ensures var (attrs, end) := Attrs(s, old(pos), old(node.tree.attrs));
              pos == end && node.tree == old(node.tree).(attrs := attrs)
    {
      hide Attrs, OneAttr, HtmlNode.Valid;
      ghost var result := Attrs(s, pos, node.tree.attrs);
      while pos < |s| && s[pos] != '>' && s[pos] != '/'
        invariant pos <= |s| && node.Valid()
        invariant node.tree == old(node.tree).(attrs := node.tree.attrs)
        invariant Attrs(s, pos, node.tree.attrs) == result
      {
        AttrsTurn(s, pos, node.tree.attrs);
        SkipWhitespace();
        if pos >= |s| || s[pos] == '>' || s[pos] == '/' {
          break;
        }
        var attr := ParseAttribute();
        node.AddAttr(attr);
      }
      AttrsDone(s, pos, node.tree.attrs);
    }

    /** From the tag name to the end of the opening tag. */
    method ParseOpenTag() returns (node: HtmlNode)
      requires pos <= |s|
      modifies this
      ensures node.Valid() && fresh(node.Repr) && !node.isText && node.nextSibling == null && node.prevSibling == null
      ensures (node.tree, pos) == OpenTag(s, old(pos))
    {
      hide Attrs, GoStrings.Lower, HtmlNode.Valid;
      var name := ParseTagName();
      node := new HtmlNode.NewElement(GoStrings.Lower(name), []);
      ParseAttributes(node);
      if pos < |s| && s[pos] == '/' {
        pos := pos + 1;
      }
      if pos < |s| && s[pos] == '>' {
        pos := pos + 1;
      }
    }

    /** A closing tag where an element was expected. */
    method ParseClosingTag() returns (node: HtmlNode)
      requires pos < |s|
      modifies this
      ensures Built(node, pos, Parsed(ClosingTag(s, old(pos)).0, ClosingTag(s, old(pos)).1)) && fresh(node.Repr)
    {
      pos := pos + 1;
      var name := ParseTagName();
      SkipPastGt();
      node := new HtmlNode.NewElement(name, [Attribute("/", "")]);
    }

    /** The element at the cursor as a linked tree of new nodes; null where the source
        panics. */
    method ParseElement() returns (node: HtmlNode?)
      requires pos < |s| && s[pos] == '<'
      modifies this
      ensures Built(node, pos, HtmlGrammar.ParseElement(s, old(pos)))
      ensures node != null ==> fresh(node.Repr)
      decreases |s| + 1 - pos, 0
    {
      ghost var start := pos;
      pos := pos + 1;
      if pos < |s| && s[pos] == '/' {
        ClosingIs(s, start);
        hide *;
        node := ParseClosingTag();
      } else {
        OpenIs(s, start);
        hide *;
        node := ParseOpened();
      }
    }

    /** An element from its tag name on. */
    method ParseOpened() returns (node: HtmlNode?)
      requires pos <= |s|
      modifies this
      ensures Built(node, pos, Finish(s, OpenTag(s, old(pos)).1, OpenTag(s, old(pos)).0))
      ensures node != null ==> fresh(node.Repr)
      decreases |s| + 1 - pos, 5
    {
      hide Finish, OpenTag, HtmlNode.Valid;
      var element := ParseOpenTag();
      var ok := FinishElement(element);
      node := if ok then element else null;
    }

    /** The children and the closing tag of node, unless it is void. */
    method FinishElement(node: HtmlNode) returns (ok: bool)
      requires pos <= |s| && node.Valid() && !node.isText && node.tree.children == []
      modifies this, node.Repr
      ensures node.nextSibling == old(node.nextSibling) && node.prevSibling == old(node.prevSibling)
      ensures var r := Finish(s, old(pos), old(node.tree));
              && ok == r.Parsed?
              && (ok ==> pos == r.pos && node.Valid() && fresh(node.Repr - old(node.Repr)) && node.tree == r.node)
      decreases |s| + 1 - pos, 4
    {
      hide HtmlGrammar.ParseChildren, IsVoid, Match, HtmlNode.Valid;
      if IsVoid(node.data) {
        return true;
      }
      ok := ParseChildren(node);
      if !ok || pos > |s| {
        return false;
      }
      if Sees("</") {
        pos := pos + 2;
        SkipPastGt();
      }
    }

    /** The loop of parseElement over the children of node. */
    method ParseChildren(node: HtmlNode) returns (ok: bool)
      requires pos <= |s| && node.Valid() && !node.isText
      modifies this, node.Repr
      ensures node.nextSibling == old(node.nextSibling) && node.prevSibling == old(node.prevSibling)
      ensures var r := HtmlGrammar.ParseChildren(s, old(pos), node.data, old(node.tree.children));
              && ok == r.Forest?
              && (ok ==> pos == r.pos && node.Valid() && fresh(node.Repr - old(node.Repr)) &&
                         node.tree == old(node.tree).(children := r.nodes))
      decreases |s| + 1 - pos, 3
    {
      hide HtmlGrammar.ParseElement, Match, HtmlNode.Valid;
      ghost var result := HtmlGrammar.ParseChildren(s, pos, node.data, node.tree.children);
      while pos < |s| && !Sees("</" + node.data)
        invariant node.Valid() && fresh(node.Repr - old(node.Repr))
        invariant node.tree == old(node.tree).(children := node.tree.children)
        invariant node.nextSibling == old(node.nextSibling) && node.prevSibling == old(node.prevSibling)
        invariant old(pos) <= pos <= |s| + 1
        invariant HtmlGrammar.ParseChildren(s, pos, node.data, node.tree.children) == result
        decreases |s| + 1 - pos
      {
        ChildTurnIs(s, pos, node.data, node.tree.children);
        hide HtmlGrammar.ParseChildren, ChildTurn;
        var more;
        ok, more := ParseChild(node);
        if !more {
          return;
        }
      }
      ok := true;
    }

    /** One turn of that loop. */
    method ParseChild(node: HtmlNode) returns (ok: bool, more: bool)
      requires pos < |s| && node.Valid() && !node.isText
      modifies this, node.Repr
      ensures node.nextSibling == old(node.nextSibling) && node.prevSibling == old(node.prevSibling)
      ensures var r := ChildTurn(s, old(pos), old(node.tree.children));
              && ok == r.Next?
              && more == (r.Next? && !r.last)
              && (ok ==> pos == r.pos && node.Valid() && fresh(node.Repr - old(node.Repr)) &&
                         node.tree == old(node.tree).(children := r.nodes))
      decreases |s| + 1 - pos, 2
    {
      SkipWhitespace();
      MatchLt(s, pos);
      hide HtmlGrammar.ParseElement, HtmlGrammar.ParseChildren, Match, HtmlNode.Valid;
      if Sees("<!--") {
        var _ := ParseComment();
        return true, true;
      } else if Sees("<") {
        ok, more := ParseChildElement(node);
      } else {
        ParseChildText(node);
        return true, true;
      }
    }

    method ParseChildElement(node: HtmlNode) returns (ok: bool, more: bool)
      requires pos < |s| && s[pos] == '<' && node.Valid() && !node.isText
      modifies this, node.Repr
      ensures node.nextSibling == old(node.nextSibling) && node.prevSibling == old(node.prevSibling)
      ensures var r := HtmlGrammar.ParseElement(s, old(pos));
              && ok == r.Parsed?
              && more == (ok && !IsClosingTag(r.node))
              && (ok ==> node.Valid() && fresh(node.Repr - old(node.Repr)))
              && (ok && !more ==> pos == r.pos && node.tree == old(node.tree))
              && (more ==> pos == SkipSpace(s, r.pos) &&
                           node.tree == old(node.tree).(children := old(node.tree.children) + [r.node]))
      decreases |s| + 1 - pos, 1
    {
      hide HtmlGrammar.ParseElement, HtmlNode.Valid;
      var child := ParseElement();
      if child == null {
        return false, false;
      }
      var closing := child.HasAttr("/");
      if closing {
        return true, false;
      }
      node.AppendChild(child);
      SkipWhitespace();
      return true, true;
    }

    method ParseChildText(node: HtmlNode)
      requires pos <= |s| && node.Valid() && !node.isText
      modifies this, node.Repr
      ensures node.nextSibling == old(node.nextSibling) && node.prevSibling == old(node.prevSibling)
      ensures node.Valid() && fresh(node.Repr - old(node.Repr)) && pos == Scan(s, old(pos), NotLt)
      ensures var more := if old(pos) < pos then [Text(s[old(pos)..pos])] else [];
              node.tree == old(node.tree).(children := old(node.tree.children) + more)
    {
      hide HtmlNode.Valid;
      var text := ParseText();
      if text != "" {
        var child := new HtmlNode.NewText(text);
        node.AppendChild(child);
      }
    }

    /** NewHTMLParser has put the cursor at the start. */
    method Parse() returns (status: Status, root: HtmlNode)
      requires pos == 0
      modifies this
      ensures fresh(root.Repr)
      ensures match HtmlGrammar.Parse(s)
              case UnclosedComment => status == CommentError
              case Panic => status == Panicked
              case Tree(children, end) =>
                status == Done && Stands(root, Element("root", [], children)) && pos == end
    {
      root := new HtmlNode.NewElement("root", []);
      SkipWhitespace();
      status := Done;
      hide HtmlNode.Valid;
      while pos < |s|
        invariant status == Done
        invariant root.Valid() && !root.isText && fresh(root.Repr)
        invariant root.nextSibling == null && root.prevSibling == null
        invariant root.tree == Element("root", [], root.tree.children)
        invariant ParseTop(s, pos, root.tree.children) == HtmlGrammar.Parse(s)
        decreases |s| + 1 - pos
      {
        TopTurnIs(s, pos, root.tree.children);
        hide ParseTop, TopTurn, HtmlGrammar.Parse;
        var more;
        status, more := ParseTopNode(root);
        if !more {
          return;
        }
      }
    }

    /** One turn of the loop of Parse. */
    method ParseTopNode(root: HtmlNode) returns (status: Status, more: bool)
      requires pos < |s| && root.Valid() && !root.isText
      modifies this, root.Repr
      ensures root.nextSibling == old(root.nextSibling) && root.prevSibling == old(root.prevSibling)
      ensures fresh(root.Repr - old(root.Repr))
      ensures var r := TopTurn(s, old(pos), old(root.tree.children));
              && more == r.TopNext?
              && (r.TopError? ==> status == CommentError)
              && (r.TopCrash? ==> status == Panicked)
              && (more ==> status == Done && root.Valid() && pos == r.pos &&
                           root.tree == old(root.tree).(children := r.nodes))
    {
      MatchLt(s, pos);
      hide HtmlGrammar.ParseElement, Match, HtmlNode.Valid;
      status, more := Done, true;
      if Sees("<!DOCTYPE") || Sees("<!doctype") {
        SkipPastGt();
        SkipWhitespace();
      } else if Sees("<!--") {
        var closed := ParseComment();
        if !closed {
          return CommentError, false;
        }
      } else if Sees("<") {
        var child := ParseElement();
        if child == null {
          return Panicked, false;
        }
        root.AppendChild(child);
        SkipWhitespace();
      } else {
        ParseChildText(root);
      }
    }
  }

  datatype Status = Done | CommentError | Panicked

  datatype TopStep = TopNext(nodes: seq<Node>, pos: nat) | TopError | TopCrash

  /** What one turn of the loop of Parse does. */
  ghost function TopTurn(s: string, pos: nat, acc: seq<Node>): TopStep
    requires pos < |s|
  {
    if Match(s, pos, "<!DOCTYPE") || Match(s, pos, "<!doctype") then
      TopNext(acc, SkipSpace(s, PastGt(s, pos)))
    else if Match(s, pos, "<!--") then
      if CommentCloses(s, pos) then TopNext(acc, CommentEnd(s, pos)) else TopError
    else if Match(s, pos, "<") then
      match HtmlGrammar.ParseElement(s, pos)
      case Crash => TopCrash
      case Parsed(node, next) => TopNext(acc + [node], SkipSpace(s, next))
    else
      var end := Scan(s, pos, NotLt);
      TopNext(acc + if pos < end then [Text(s[pos..end])] else [], end)
  }

  ghost function AfterTop(s: string, t: TopStep): Outcome {
    match t
    case TopError => UnclosedComment
    case TopCrash => Panic
    case TopNext(nodes, pos) => ParseTop(s, pos, nodes)
  }

  lemma TopTurnIs(s: string, pos: nat, acc: seq<Node>)
    requires pos < |s|
    ensures ParseTop(s, pos, acc) == AfterTop(s, TopTurn(s, pos, acc))
    ensures var t := TopTurn(s, pos, acc); t.TopNext? ==> pos < t.pos
  {
    hide HtmlGrammar.ParseElement, CommentEnd, CommentCloses;
    MatchLt(s, pos);
    assert acc + [] == acc;
  }

  /** The opening tag whose name starts at pos, as an element without children. */
  ghost function OpenTag(s: string, pos: nat): (r: (Node, nat))
    requires pos <= |s|
    ensures r.0.Element? && r.0.children == [] && pos <= r.1 <= |s|
  {
    var end := Scan(s, pos, IsNameChar);
    var (attrs, next) := Attrs(s, end, []);
    (Element(GoStrings.Lower(s[pos..end]), attrs, []), TagEnd(s, next))
  }

  /** The closing tag whose slash stands at pos, as the source returns it. */
  ghost function ClosingTag(s: string, pos: nat): (Node, nat)
    requires pos < |s|
  {
    var end := Scan(s, pos + 1, IsNameChar);
    (Element(s[pos + 1..end], [Attribute("/", "")], []), PastGt(s, end))
  }

  /** What follows the opening tag of the element open. */
  ghost function Finish(s: string, inside: nat, open: Node): ElementResult
    requires inside <= |s| && open.Element?
  {
    if IsVoid(open.tag) then Parsed(open, inside)
    else
      var r := HtmlGrammar.ParseChildren(s, inside, open.tag, []);
      if r.ForestCrash? || r.pos > |s| then Crash
      else if Match(s, r.pos, "</") then Parsed(open.(children := r.nodes), PastGt(s, r.pos + 2))
      else Parsed(open.(children := r.nodes), r.pos)
  }

  /** An element with a slash behind its '<' is a closing tag. */
  lemma ClosingIs(s: string, pos: nat)
    requires pos + 1 < |s| && s[pos] == '<' && s[pos + 1] == '/'
    ensures HtmlGrammar.ParseElement(s, pos) == Parsed(ClosingTag(s, pos + 1).0, ClosingTag(s, pos + 1).1)
  {
    hide HtmlGrammar.ParseChildren, Attrs, IsVoid, TagEnd, GoStrings.Lower, Match;
  }

  /** Any other is what follows its opening tag. */
  lemma OpenIs(s: string, pos: nat)
    requires pos < |s| && s[pos] == '<' && !(pos + 1 < |s| && s[pos + 1] == '/')
    ensures HtmlGrammar.ParseElement(s, pos) == Finish(s, OpenTag(s, pos + 1).1, OpenTag(s, pos + 1).0)
  {
    hide HtmlGrammar.ParseChildren, Attrs, IsVoid, TagEnd, GoStrings.Lower, Match;
  }

  datatype Turn = Fail | Next(last: bool, nodes: seq<Node>, pos: nat)

  /** What one turn of the children's loop does. */
  ghost function ChildTurn(s: string, pos: nat, acc: seq<Node>): (r: Turn)
    requires pos < |s|
  {
    var at := SkipSpace(s, pos);
    if Match(s, at, "<!--") then Next(false, acc, CommentEnd(s, at))
    else if Match(s, at, "<") then
      match HtmlGrammar.ParseElement(s, at)
      case Crash => Fail
      case Parsed(node, next) =>
        if IsClosingTag(node) then Next(true, acc, next)
        else Next(false, acc + [node], SkipSpace(s, next))
    else
      var end := Scan(s, at, NotLt);
      Next(false, if at < end then acc + [Text(s[at..end])] else acc, end)
  }

  ghost function AfterTurn(s: string, tag: string, t: Turn): ForestResult {
    if t.Fail? then ForestCrash
    else if t.last then Forest(t.nodes, t.pos)
    else HtmlGrammar.ParseChildren(s, t.pos, tag, t.nodes)
  }

  lemma ChildTurnIs(s: string, pos: nat, tag: string, acc: seq<Node>)
    requires pos < |s| && !Match(s, pos, "</" + tag)
    ensures HtmlGrammar.ParseChildren(s, pos, tag, acc) == AfterTurn(s, tag, ChildTurn(s, pos, acc))
    ensures var t := ChildTurn(s, pos, acc); t.Next? ==> pos < t.pos <= |s| + 1
  {
    hide HtmlGrammar.ParseElement, IsClosingTag, CommentEnd;
  }

  /** A detached, valid linked tree that spells out the given tree of values. */
  /** What a method built, and where it left the cursor, for a result of the grammar. */
  ghost predicate Built(node: HtmlNode?, pos: nat, r: ElementResult)
    reads node, if node != null then node.Repr else {}
  {
    && (node == null <==> r.Crash?)
    && (node != null ==> Stands(node, r.node) && pos == r.pos)
  }

  ghost predicate Stands(node: HtmlNode, tree: Node)
    reads node, node.Repr
  {
    node.Valid() && node.tree == tree && node.nextSibling == null && node.prevSibling == null
  }
}
