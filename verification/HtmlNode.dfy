/** surf's linked node tree: every node links to its first and last child and to its
    siblings. The ghost fields name the tree of values the links stand for. */
module HtmlNodes {
  import opened HtmlGrammar

  class HtmlNode {
    const isText: bool
    const data: string
    var attrs: seq<Attribute>
    var firstChild: HtmlNode?
    var lastChild: HtmlNode?
    var nextSibling: HtmlNode?
    var prevSibling: HtmlNode?

    ghost var kids: seq<HtmlNode>
    ghost var Repr: set<HtmlNode>
    ghost var tree: Node

    /** Sibling links belong to the parent's list, so a node's own validity does not read them. */
    ghost predicate Valid()
      reads this`attrs, this`firstChild, this`lastChild, this`kids, this`Repr, this`tree, Repr - {this}
      ensures Valid() ==> this in Repr && tree.Element? == !isText
      ensures Valid() && !isText ==> tree.tag == data && tree.attrs == attrs
      decreases Repr
    {
      && this in Repr
      && (forall k :: k in kids ==> k in Repr && k.Repr <= Repr && this !in k.Repr && k.Valid())
      && Apart()
      && Linked()
      && (if isText then kids == [] && tree == Text(data) else Spells())
    }

    /** The tree of an element lists the trees of its children. */
    ghost predicate Spells()
      reads this`attrs, this`kids, this`tree, kids
    {
      && tree.Element? && tree.tag == data && tree.attrs == attrs
      && |tree.children| == |kids|
      && forall i :: 0 <= i < |kids| ==> tree.children[i] == kids[i].tree
    }

    ghost predicate Apart()
      reads this`kids, kids
    {
      forall i, j :: 0 <= i < j < |kids| ==> kids[i].Repr !! kids[j].Repr
    }

    /** The four links spell out the list of children. */
    ghost predicate Linked()
      reads this`firstChild, this`lastChild, this`kids, kids
    {
      LinkedAs(kids)
    }

    ghost predicate LinkedAs(kids: seq<HtmlNode>)
      reads this`firstChild, this`lastChild, kids
    {
      && (kids == [] <==> firstChild == null)
      && (kids == [] <==> lastChild == null)
      && (kids != [] ==> firstChild == kids[0] && lastChild == kids[|kids| - 1])
      && (forall i {:trigger kids[i].nextSibling} :: 0 <= i < |kids| ==>
            kids[i].nextSibling == if i + 1 < |kids| then kids[i + 1] else null)
      && (forall i {:trigger kids[i].prevSibling} :: 0 <= i < |kids| ==>
            kids[i].prevSibling == if i > 0 then kids[i - 1] else null)
    }

    constructor NewText(data: string)
      ensures Valid() && fresh(Repr) && tree == Text(data)
      ensures nextSibling == null && prevSibling == null
    {
      isText, this.data, attrs := true, data, [];
      firstChild, lastChild, nextSibling, prevSibling := null, null, null, null;
      kids, Repr, tree := [], {this}, Text(data);
    }

    constructor NewElement(tag: string, attrs: seq<Attribute>)
      ensures Valid() && fresh(Repr) && tree == Element(tag, attrs, [])
      ensures !isText && nextSibling == null && prevSibling == null
    {
      isText, data, this.attrs := false, tag, attrs;
      firstChild, lastChild, nextSibling, prevSibling := null, null, null, null;
      kids, Repr, tree := [], {this}, Element(tag, attrs, []);
    }

    method AddAttr(a: Attribute)
      requires !isText && Valid()
      modifies this`attrs, this`tree
      ensures Valid() && tree == old(tree).(attrs := old(tree.attrs) + [a])
    {
      attrs := attrs + [a];
      tree := tree.(attrs := attrs);
    }

    method HasAttr(key: string) returns (has: bool)
      ensures has <==> exists i :: 0 <= i < |attrs| && attrs[i].key == key
    {
      for i := 0 to |attrs|
        invariant forall j :: 0 <= j < i ==> attrs[j].key != key
      {
        if attrs[i].key == key {
          return true;
        }
      }
      return false;
    }

    method AppendChild(child: HtmlNode)
      requires !isText && Valid() && child.Valid() && Repr !! child.Repr
      requires child.nextSibling == null && child.prevSibling == null
      modifies Repr, child
      ensures Valid() && kids == old(kids) + [child]
      ensures Repr == old(Repr) + child.Repr && child.Repr == old(child.Repr)
      ensures tree == old(tree).(children := old(tree.children) + [old(child.tree)])
      ensures nextSibling == old(nextSibling) && prevSibling == old(prevSibling)
    {
      Link(child);
      Adopt(child);
    }

    /** The link updates of AppendChild; they leave every subtree alone. */
    method Link(child: HtmlNode)
      requires Linked() && this !in kids && child !in kids && child != this
      requires forall i, j :: 0 <= i < j < |kids| ==> kids[i] != kids[j]
      requires child.nextSibling == null && child.prevSibling == null
      modifies this`firstChild, this`lastChild, kids`nextSibling, child`prevSibling
      ensures LinkedAs(kids + [child])
    {
      if lastChild != null {
        lastChild.nextSibling := child;
        child.prevSibling := lastChild;
      } else {
        firstChild := child;
      }
      lastChild := child;
      ghost var all := kids + [child];
      assert forall i :: 0 <= i < |kids| ==> all[i] == kids[i];
    }

    /** The ghost side of AppendChild: the new links spell out one more child. */
    ghost method Adopt(child: HtmlNode)
      requires !isText && this in Repr && child.Valid() && child in child.Repr && Repr !! child.Repr && child !in kids
      requires forall k :: k in kids ==> k in Repr && k.Repr <= Repr && this !in k.Repr && k.Valid()
      requires Apart() && Spells()
      requires LinkedAs(kids + [child])
      modifies this`kids, this`Repr, this`tree
      ensures kids == old(kids) + [child] && Repr == old(Repr) + child.Repr
      ensures tree == old(tree).(children := old(tree.children) + [child.tree])
      ensures this in Repr && Apart() && Linked() && Spells()
      ensures forall k :: k in kids ==> k in Repr && k.Repr <= Repr && this !in k.Repr && k.Valid()
    {
      hide Valid;
      ghost var before := kids;
      kids := kids + [child];
      Repr := Repr + child.Repr;
      tree := tree.(children := tree.children + [child.tree]);
      assert forall k :: k in kids ==> k in before || k == child;
      assert Apart() by {
        forall i, j | 0 <= i < j < |kids| ensures kids[i].Repr !! kids[j].Repr {
          assert kids[i] == before[i] && kids[i] in before;
          assert j < |before| ==> kids[j] == before[j];
        }
      }
    }
  }
}
