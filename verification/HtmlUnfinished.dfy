/** What the parser makes of text that stops too early or closes the wrong thing. */
module HtmlUnfinished {
  import opened Common
  import opened HtmlGrammar
  import opened HtmlRoundTrip
  import opened HtmlWritten
  import GoStrings

  // ---------- closing tags left out at the end ----------

  /** The last node of f is an element, so is its last child, and so on; none of them stands
      behind a comment and blanks. */
  predicate Deep(f: seq<Item>, depth: nat) {
    depth == 0 || (f != [] && var n := f[|f| - 1];
                   && n.Tagged? && !IsVoid(GoStrings.Lower(n.tag)) && Deep(n.children, depth - 1)
                   && (|f| > 1 && f[|f| - 2].Comment? ==> n.gap == ""))
  }

  /** The text of f without the closing tags of its last `depth` elements, and then `rest`. */
  function WriteOpened(f: seq<Item>, tail: string, depth: nat, rest: string): string
    requires Deep(f, depth)
  {
    if depth == 0 then Write(f) + (tail + rest)
    else
      var n := f[|f| - 1];
      Write(f[..|f| - 1]) + (n.gap + (WriteOpen(n.tag, n.attrs, n.trail, n.slash) +
                                      WriteOpened(n.children, n.tail, depth - 1, rest)))
  }

  /** Nothing more, or a comment without an end. */
  predicate RestFits(rest: string) {
    rest == "" || ("<!--" <= rest && forall i :: 4 <= i < |rest| ==> !OccursAt(rest, "-->", i))
  }

  lemma {:induction false} MarkMissing(s: string, from: nat)
    requires from <= |s| && forall i :: from <= i < |s| ==> !OccursAt(s, "-->", i)
    ensures FindCommentEnd(s, from) + 2 >= |s|
    decreases |s| - from
  {
    if from + 2 < |s| {
      assert !OccursAt(s, "-->", from);
      assert s[from..from + 3] == [s[from], s[from + 1], s[from + 2]];
      MarkMissing(s, from + 1);
    }
  }

  lemma OpenComment(s: string, pos: nat, rest: string)
    requires rest != "" && RestFits(rest) && At(s, pos, rest) && pos + |rest| == |s|
    ensures pos < |s| && s[pos] == '<' && Match(s, pos, "<!--")
    ensures CommentEnd(s, pos) == |s| && !CommentCloses(s, pos)
  {
    AtChars(s, pos, rest);
    hide At;
    assert s[pos..pos + 4] == rest[..4] == "<!--";
    forall i | pos + 4 <= i < |s| ensures !OccursAt(s, "-->", i) {
      assert i + 3 <= |s| ==> s[i..i + 3] == rest[i - pos..i - pos + 3];
      assert !OccursAt(rest, "-->", i - pos);
    }
    MarkMissing(s, pos + 4);
  }

  /** The loop over the children reads such a rest without a complaint. */
  lemma RestEnds(s: string, pos: nat, tag: string, acc: seq<Node>, rest: string)
    requires RestFits(rest) && At(s, pos, rest) && pos + |rest| == |s|
    ensures ParseChildren(s, pos, tag, acc) == Forest(acc, |s|)
  {
    hide At, ParseElement;
    if rest != "" {
      OpenComment(s, pos, rest);
      NoteTurn(s, pos, tag, acc);
    }
  }

  lemma UnclosedElement(s: string, pos: nat, n: Item, nodes: seq<Node>)
    requires n.Tagged? && TagFits(n.tag) && TagAttrsFit(n.attrs, n.trail, n.slash)
    requires !IsVoid(GoStrings.Lower(n.tag)) && At(s, pos, WriteOpen(n.tag, n.attrs, n.trail, n.slash))
    requires ParseChildren(s, pos + |WriteOpen(n.tag, n.attrs, n.trail, n.slash)|, GoStrings.Lower(n.tag), []) ==
             Forest(nodes, |s|)
    ensures pos < |s| && s[pos] == '<' && PlainStart(s, pos)
    ensures ParseElement(s, pos) == Parsed(Element(GoStrings.Lower(n.tag), MeantAttrs(n.attrs), nodes), |s|)
  {
    hide At, AttrsFit, TagFits, Attrs, TagEnd, ParseChildren, IsVoid, WriteOpen, GoStrings.Lower;
    OpenReads(s, pos, n.tag, n.attrs, n.trail, n.slash);
    hide IsSpace;
    OpenIsPlain(s, pos);
  }

  lemma OpenIsPlain(s: string, pos: nat)
    requires pos + 1 < |s| && s[pos] == '<' && s[pos + 1] != '/' && s[pos + 1] != '!'
    ensures PlainStart(s, pos)
  {
    PlainStartFrom(s, pos);
  }

  /** What stands before the last node of a list. */
  function LastKind(f: seq<Item>, before: Before): Before {
    if f == [] then before else Kind(f[|f| - 1])
  }

  /** A list without its last node, followed by the gap of that node or by nothing. */
  lemma {:induction false} FitsSplit(f: seq<Item>, tail: string, top: bool, before: Before)
    requires f != [] && Fits(f, tail, top, before)
    ensures var front, n := f[..|f| - 1], f[|f| - 1];
            && FitsOne(n, top, LastKind(front, before))
            && (TailFits(n.gap, top, LastKind(front, before)) ==> Fits(front, n.gap, top, before))
    decreases |f|
  {
    hide FitsOne;
    if |f| == 1 {
      OneFits(f[0], top, before);
    } else {
      var front, rest := f[..|f| - 1], f[1..];
      FitsSplit(rest, tail, top, Kind(f[0]));
      assert rest[..|rest| - 1] == front[1..] && rest[|rest| - 1] == f[|f| - 1];
    }
  }

  lemma OneFits(n: Item, top: bool, before: Before)
    requires FitsOne(n, top, before)
    ensures Blanks(n.gap)
  {
  }

  /** The text of the last node of a list on its own, and where it begins. */
  function OpenText(n: Item, depth: nat, rest: string): string
    requires n.Tagged? && Deep(n.children, depth)
  {
    WriteOpen(n.tag, n.attrs, n.trail, n.slash) + WriteOpened(n.children, n.tail, depth, rest)
  }

  function LastPlace(pos: nat, f: seq<Item>): nat
    requires f != []
  {
    pos + |Write(f[..|f| - 1])| + |f[|f| - 1].gap|
  }

  lemma OpenedSplit(s: string, pos: nat, f: seq<Item>, tail: string, depth: nat, rest: string)
    requires depth > 0 && Deep(f, depth) && At(s, pos, WriteOpened(f, tail, depth, rest))
    ensures var front, n := f[..|f| - 1], f[|f| - 1];
            && At(s, pos, Write(front) + (n.gap + OpenText(n, depth - 1, rest)))
            && At(s, LastPlace(pos, f), OpenText(n, depth - 1, rest))
            && At(s, LastPlace(pos, f), WriteOpen(n.tag, n.attrs, n.trail, n.slash))
            && At(s, LastPlace(pos, f) + |WriteOpen(n.tag, n.attrs, n.trail, n.slash)|,
                  WriteOpened(n.children, n.tail, depth - 1, rest))
            && At(s, pos, Write(front)) && At(s, pos + |Write(front)|, n.gap)
            && |WriteOpened(f, tail, depth, rest)| == |Write(front)| + |n.gap| + |OpenText(n, depth - 1, rest)|
            && OpenText(n, depth - 1, rest) != "" && OpenText(n, depth - 1, rest)[0] == '<'
  {
    hide At, Write, WriteAttrs, WriteEnd;
    var front, n := f[..|f| - 1], f[|f| - 1];
    var open, inner := WriteOpen(n.tag, n.attrs, n.trail, n.slash), WriteOpened(n.children, n.tail, depth - 1, rest);
    AtSplit(s, pos, Write(front), n.gap + (open + inner));
    AtSplit(s, pos + |Write(front)|, n.gap, open + inner);
    AtSplit(s, LastPlace(pos, f), open, inner);
  }

  /** The loop over the children comes to the last node, having read the others. */
  lemma ReachLast(s: string, pos: nat, tag: string, acc: seq<Node>, f: seq<Item>, tail: string, depth: nat,
                  rest: string)
    requires depth > 0 && Deep(f, depth) && Fits(f, tail, false, Start)
    requires At(s, pos, WriteOpened(f, tail, depth, rest)) && pos + |WriteOpened(f, tail, depth, rest)| == |s|
    requires PlainStart(s, LastPlace(pos, f))
    ensures ParseChildren(s, pos, tag, acc) == ParseChildren(s, LastPlace(pos, f), tag, acc + Meant(f[..|f| - 1]))
  {
    hide *;
    DeepLast(f, depth);
    var front, n := f[..|f| - 1], f[|f| - 1];
    OpenedSplit(s, pos, f, tail, depth, rest);
    FitsSplit(f, tail, false, Start);
    LastPlaceIs(pos, f);
    var close := OpenText(n, depth - 1, rest);
    if front == [] {
      PlainIs(s, LastPlace(pos, f));
      OneFits(n, false, LastKind(front, Start));
      GapTurn(s, pos, tag, acc, n.gap);
      NoItems(s, pos, acc, front, n.gap);
    } else {
      LastTail(f, tail, depth);
      StandsAt(s, pos, front, n.gap, false, Start, close);
      FromGap(s, pos, tag, acc, front, n.gap, Start, close);
      ItemsTurn(s, pos, tag, acc, front, n.gap, Start, close);
    }
  }

  lemma LastPlaceIs(pos: nat, f: seq<Item>)
    requires f != []
    ensures LastPlace(pos, f) == pos + |Write(f[..|f| - 1])| + |f[|f| - 1].gap|
    ensures |f| == 1 ==> |Write(f[..|f| - 1])| == 0
  {
  }

  lemma PlainIs(s: string, pos: nat)
    requires PlainStart(s, pos)
    ensures pos < |s| && !IsSpace(s[pos]) && NoClose(s, pos)
  {
  }

  lemma LastTail(f: seq<Item>, tail: string, depth: nat)
    requires depth > 0 && Deep(f, depth) && |f| > 1 && FitsOne(f[|f| - 1], false, LastKind(f[..|f| - 1], Start))
    ensures TailFits(f[|f| - 1].gap, false, LastKind(f[..|f| - 1], Start))
  {
    assert f[..|f| - 1][|f| - 2] == f[|f| - 2];
  }

  lemma StandsAt(s: string, pos: nat, f: seq<Item>, tail: string, top: bool, before: Before, close: string)
    requires Fits(f, tail, top, before) && At(s, pos, Write(f) + (tail + close)) && close != "" && close[0] == '<'
    ensures Stands(s, pos, f, tail, top, before, close)
  {
  }

  /** Without their closing tags, and even with a comment left open, the last elements keep
      all their children. */
  lemma OpensRead(s: string, pos: nat, tag: string, acc: seq<Node>, f: seq<Item>, tail: string, depth: nat,
                  rest: string)
    requires Deep(f, depth) && Fits(f, tail, false, Start) && RestFits(rest)
    requires At(s, pos, WriteOpened(f, tail, depth, rest)) && pos + |WriteOpened(f, tail, depth, rest)| == |s|
    ensures ParseChildren(s, pos, tag, acc) == Forest(acc + Meant(f), |s|)
    decreases depth
  {
    hide *;
    if depth == 0 {
      ClosedStands(s, pos, f, tail, rest);
      FromGap(s, pos, tag, acc, f, tail, Start, rest);
      ItemsTurn(s, pos, tag, acc, f, tail, Start, rest);
      RestEnds(s, pos + |Write(f)| + |tail|, tag, acc + Meant(f), rest);
    } else {
      DeepLast(f, depth);
      var front, n := f[..|f| - 1], f[|f| - 1];
      LastReads(s, pos, f, tail, false, depth, rest);
      ReachLast(s, pos, tag, acc, f, tail, depth, rest);
      FitsSplit(f, tail, false, Start);
      LastTurn(s, LastPlace(pos, f), tag, acc + Meant(front), n, false, LastKind(front, Start));
      MeantLast(acc, f);
    }
  }

  lemma ClosedStands(s: string, pos: nat, f: seq<Item>, tail: string, rest: string)
    requires Fits(f, tail, false, Start) && RestFits(rest)
    requires At(s, pos, WriteOpened(f, tail, 0, rest)) && pos + |WriteOpened(f, tail, 0, rest)| == |s|
    ensures Stands(s, pos, f, tail, false, Start, rest)
    ensures At(s, pos + |Write(f)| + |tail|, rest) && pos + |Write(f)| + |tail| + |rest| == |s|
  {
    hide At, Write, Fits;
    AtSplit(s, pos, Write(f), tail + rest);
    AtSplit(s, pos + |Write(f)|, tail, rest);
  }

  /** The last node is read to the end of the text. */
  lemma LastReads(s: string, pos: nat, f: seq<Item>, tail: string, top: bool, depth: nat, rest: string)
    requires depth > 0 && Deep(f, depth) && Fits(f, tail, top, Start) && RestFits(rest)
    requires At(s, pos, WriteOpened(f, tail, depth, rest)) && pos + |WriteOpened(f, tail, depth, rest)| == |s|
    ensures var p, n := LastPlace(pos, f), f[|f| - 1];
            p < |s| && s[p] == '<' && PlainStart(s, p) && n.Tagged? && ParseElement(s, p) == Parsed(MeantTag(n), |s|)
    decreases depth, 0
  {
    hide *;
    DeepLast(f, depth);
    var n := f[|f| - 1];
    OpenedSplit(s, pos, f, tail, depth, rest);
    FitsSplit(f, tail, top, Start);
    ItemFits(n, top, LastKind(f[..|f| - 1], Start));
    LastPlaceIs(pos, f);
    var open := WriteOpen(n.tag, n.attrs, n.trail, n.slash);
    OpenTextIs(n, depth - 1, rest);
    OpensRead(s, LastPlace(pos, f) + |open|, GoStrings.Lower(n.tag), [], n.children, n.tail, depth - 1, rest);
    assert [] + Meant(n.children) == Meant(n.children);
    UnclosedElement(s, LastPlace(pos, f), n, Meant(n.children));
    MeantTagIs(n);
  }

  lemma DeepLast(f: seq<Item>, depth: nat)
    requires depth > 0 && Deep(f, depth)
    ensures f != [] && f[|f| - 1].Tagged? && !IsVoid(GoStrings.Lower(f[|f| - 1].tag))
    ensures Deep(f[|f| - 1].children, depth - 1)
  {
  }

  lemma OpenTextIs(n: Item, depth: nat, rest: string)
    requires n.Tagged? && Deep(n.children, depth)
    ensures |OpenText(n, depth, rest)| ==
            |WriteOpen(n.tag, n.attrs, n.trail, n.slash)| + |WriteOpened(n.children, n.tail, depth, rest)|
  {
  }

  lemma MeantTagIs(n: Item)
    requires n.Tagged?
    ensures MeantTag(n) == Element(GoStrings.Lower(n.tag), MeantAttrs(n.attrs), Meant(n.children))
  {
  }

  lemma LastTurn(s: string, pos: nat, tag: string, acc: seq<Node>, n: Item, top: bool, before: Before)
    requires n.Tagged? && FitsOne(n, top, before) && pos < |s| && s[pos] == '<' && PlainStart(s, pos)
    requires ParseElement(s, pos) == Parsed(MeantTag(n), |s|)
    ensures ParseChildren(s, pos, tag, acc) == Forest(acc + MeantOne(n), |s|)
    ensures ParseTop(s, pos, acc) == Tree(acc + MeantOne(n), |s|)
  {
    MeantStays(n, top, before);
    hide MeantTag, MeantOne, FitsOne, IsClosingTag, ParseElement, PlainStart;
    TagTurn(s, pos, tag, acc, MeantTag(n), |s|);
  }

  lemma {:induction false} MeantSplit(f: seq<Item>, g: seq<Item>)
    ensures Meant(f + g) == Meant(f) + Meant(g)
  {
    if f == [] {
      assert f + g == g;
    } else {
      assert (f + g)[1..] == f[1..] + g;
      MeantSplit(f[1..], g);
    }
  }

  lemma MeantEnd(f: seq<Item>)
    requires f != []
    ensures Meant(f) == Meant(f[..|f| - 1]) + MeantOne(f[|f| - 1])
  {
    hide Meant, MeantOne;
    var front, last := f[..|f| - 1], [f[|f| - 1]];
    assert f == front + last;
    MeantSplit(front, last);
    MeantSingle(last);
  }

  lemma MeantLast(acc: seq<Node>, f: seq<Item>)
    requires f != []
    ensures acc + Meant(f[..|f| - 1]) + MeantOne(f[|f| - 1]) == acc + Meant(f)
  {
    hide Meant, MeantOne;
    MeantEnd(f);
  }

  lemma MeantSingle(f: seq<Item>)
    requires |f| == 1
    ensures Meant(f) == MeantOne(f[0])
  {
    assert Meant(f[1..]) == [];
  }

  /** A page is the same tree without the closing tags at its end, however many are missing,
      and even with a comment left open inside the last element. */
  lemma OpenAtEnd(f: seq<Item>, tail: string, depth: nat, rest: string, s: string)
    requires depth > 0 && Deep(f, depth) && Fits(f, tail, true, Start) && RestFits(rest)
    requires s == WriteOpened(f, tail, depth, rest)
    ensures Parse(s) == Tree(Meant(f), |s|)
  {
    hide *;
    AtWhole(s);
    DeepLast(f, depth);
    var front, n := f[..|f| - 1], f[|f| - 1];
    LastReads(s, 0, f, tail, true, depth, rest);
    OpenedSplit(s, 0, f, tail, depth, rest);
    FitsSplit(f, tail, true, Start);
    TopTail(n, LastKind(front, Start));
    OpenedIs(f, tail, depth, rest);
    PageStart(front, n.gap, OpenText(n, depth - 1, rest), s);
    LastPlaceIs(0, f);
    LastTurn(s, LastPlace(0, f), "", Meant(front), n, true, LastKind(front, Start));
    MeantEnd(f);
  }

  lemma TopTail(n: Item, before: Before)
    requires FitsOne(n, true, before)
    ensures TailFits(n.gap, true, before)
  {
  }

  lemma OpenedIs(f: seq<Item>, tail: string, depth: nat, rest: string)
    requires depth > 0 && Deep(f, depth)
    ensures var front, n := f[..|f| - 1], f[|f| - 1];
            WriteOpened(f, tail, depth, rest) == Write(front) + (n.gap + OpenText(n, depth - 1, rest))
  {
  }

  /** Between elements a comment left open is the parser's one error. */
  lemma CommentLeftOpen(f: seq<Item>, tail: string, rest: string, s: string)
    requires Fits(f, tail, true, Start) && RestFits(rest) && rest != "" && s == Write(f) + (tail + rest)
    ensures Parse(s) == UnclosedComment
  {
    hide *;
    RestStartsWithLt(rest);
    PageStart(f, tail, rest, s);
    OpenComment(s, |Write(f)| + |tail|, rest);
    NoDoctype(s, |Write(f)| + |tail|);
    TopUnclosed(s, |Write(f)| + |tail|, Meant(f));
  }

  lemma RestStartsWithLt(rest: string)
    requires rest != "" && RestFits(rest)
    ensures rest[0] == '<'
  {
  }

  lemma TopUnclosed(s: string, pos: nat, acc: seq<Node>)
    requires pos < |s| && Match(s, pos, "<!--") && !CommentCloses(s, pos)
    requires !Match(s, pos, "<!DOCTYPE") && !Match(s, pos, "<!doctype")
    ensures ParseTop(s, pos, acc) == UnclosedComment
  {
  }

  // ---------- closing tags that close nothing ----------

  /** Any closing tag: its name, and what follows the name in it. */
  function AnyClose(name: string, extra: string): string {
    "</" + (name + (extra + ">"))
  }

  predicate CloseFits(name: string, extra: string) {
    (name == "" || TagFits(name)) && Without(extra, ">") && (extra == "" || Blank(extra[0]))
  }

  /** Where an element is expected a closing tag is an element with the attribute "/"; its
      name keeps its capitals. */
  lemma ClosingTagReads(s: string, pos: nat, name: string, extra: string)
    requires CloseFits(name, extra) && At(s, pos, AnyClose(name, extra))
    ensures pos + 1 < |s| && s[pos] == '<' && s[pos + 1] == '/'
    ensures ParseElement(s, pos) ==
            Parsed(Element(name, [Attribute("/", "")], []), pos + |AnyClose(name, extra)|)
  {
    hide At, TagFits, Without, IsNameChar, Blank, ParseChildren;
    var rest := extra + ">";
    AtSplit(s, pos, "</", name + rest);
    AtChars(s, pos, "</");
    AtSplit(s, pos + 2, name, rest);
    AtChars(s, pos + 2, name);
    AtChars(s, pos + 2 + |name|, rest);
    var end := pos + 2 + |name|;
    assert s[end] == rest[0];
    BlankEndsName(rest[0]);
    if name != "" {
      TagPlain(name);
    }
    ScanTo(s, pos + 2, IsNameChar, end);
    ClosedReads(s, end, extra);
  }

  /** At the top it joins the tree as such an element. */
  lemma StrayClose(f: seq<Item>, tail: string, name: string, extra: string, s: string)
    requires Fits(f, tail, true, Start) && CloseFits(name, extra) && s == Write(f) + (tail + AnyClose(name, extra))
    ensures Parse(s) == Tree(Meant(f) + [Element(name, [Attribute("/", "")], [])], |s|)
  {
    hide *;
    var pos := |Write(f)| + |tail|;
    AnyCloseStarts(name, extra);
    PageStart(f, tail, AnyClose(name, extra), s);
    ClosingTagReads(s, pos, name, extra);
    TopClose(s, pos, Meant(f), Element(name, [Attribute("/", "")], []));
  }

  lemma AnyCloseStarts(name: string, extra: string)
    ensures AnyClose(name, extra) != "" && AnyClose(name, extra)[0] == '<'
  {
  }

  lemma NotADeclaration(s: string, pos: nat)
    requires pos + 1 < |s| && s[pos] == '<' && s[pos + 1] == '/'
    ensures Match(s, pos, "<") && !Match(s, pos, "<!--")
    ensures !Match(s, pos, "<!DOCTYPE") && !Match(s, pos, "<!doctype")
  {
    MatchLt(s, pos);
    if Match(s, pos, "<!--") { FirstTwo(s, pos, "<!--"); }
    if Match(s, pos, "<!DOCTYPE") { FirstTwo(s, pos, "<!DOCTYPE"); }
    if Match(s, pos, "<!doctype") { FirstTwo(s, pos, "<!doctype"); }
  }

  lemma TopClose(s: string, pos: nat, acc: seq<Node>, n: Node)
    requires pos + 1 < |s| && s[pos] == '<' && s[pos + 1] == '/' && ParseElement(s, pos) == Parsed(n, |s|)
    ensures ParseTop(s, pos, acc) == Tree(acc + [n], |s|)
  {
    NotADeclaration(s, pos);
    hide ParseElement, CommentEnd, CommentCloses, Match, PastGt;
  }

  /** The closing tag of something else ends an element all the same, and if another closing
      tag follows at once, that one is lost with it. */
  lemma WrongClose(s: string, pos: nat, n: Item, name: string, extra: string)
    requires n.Tagged? && TagFits(n.tag) && TagAttrsFit(n.attrs, n.trail, n.slash)
    requires !IsVoid(GoStrings.Lower(n.tag)) && Fits(n.children, n.tail, false, Start)
    requires CloseFits(name, extra) && !(GoStrings.Lower(n.tag) <= name + (extra + ">"))
    requires At(s, pos, WriteOpen(n.tag, n.attrs, n.trail, n.slash) +
                        (Write(n.children) + (n.tail + AnyClose(name, extra))))
    ensures pos < |s| && s[pos] == '<'
    ensures var end := pos + |WriteOpen(n.tag, n.attrs, n.trail, n.slash)| + |Write(n.children)| + |n.tail| +
                       |AnyClose(name, extra)|;
            && end <= |s|
            && ParseElement(s, pos) == Parsed(MeantTag(n), if Match(s, end, "</") then PastGt(s, end + 2) else end)
  {
    hide *;
    var open, close := WriteOpen(n.tag, n.attrs, n.trail, n.slash), AnyClose(name, extra);
    var tag, inside := GoStrings.Lower(n.tag), pos + |open|;
    AtSplit(s, pos, open, Write(n.children) + (n.tail + close));
    AtSplit(s, inside, Write(n.children), n.tail + close);
    AtSplit(s, inside + |Write(n.children)|, n.tail, close);
    AnyCloseStarts(name, extra);
    StandsAt(s, inside, n.children, n.tail, false, Start, close);
    FromGap(s, inside, tag, [], n.children, n.tail, Start, close);
    ItemsTurn(s, inside, tag, [], n.children, n.tail, Start, close);
    var at := inside + |Write(n.children)| + |n.tail|;
    TagPlain(n.tag);
    OtherName(s, at, tag, name, extra);
    ClosingTagReads(s, at, name, extra);
    assert [] + Meant(n.children) == Meant(n.children);
    CloseTurn(s, at, tag, Meant(n.children), name, at + |close|);
    AtInside(s, at, close);
    ElementEnds(s, pos, n, at + |close|);
  }

  lemma OtherName(s: string, at: nat, tag: string, name: string, extra: string)
    requires At(s, at, AnyClose(name, extra)) && !(tag <= name + (extra + ">")) && Without(tag, ">")
    ensures at <= |s| && !Match(s, at, "</" + tag)
  {
    var close := AnyClose(name, extra);
    AtChars(s, at, close);
    hide At;
    var rest := name + (extra + ">");
    assert close == "</" + rest && s[at + 2..at + 2 + |rest|] == close[2..] == rest;
    if Match(s, at, "</" + tag) {
      LongerClose(s, at, tag, rest);
    }
  }

  /** The first '>' ends a closing tag, so a name without one cannot reach beyond it. */
  lemma LongerClose(s: string, at: nat, tag: string, rest: string)
    requires at + 2 + |rest| <= |s| && s[at + 2..at + 2 + |rest|] == rest && Match(s, at, "</" + tag)
    requires Without(tag, ">") && rest != "" && rest[|rest| - 1] == '>'
    ensures tag <= rest
  {
    var end := at + 2 + |tag|;
    assert tag == ("</" + tag)[2..] == s[at..end][2..] == s[at + 2..end];
    OneIsPrefix(s[at + 2..], tag, rest);
  }

  lemma OneIsPrefix(s: string, a: string, b: string)
    requires a <= s && b <= s
    ensures a <= b || (b <= a && (b != "" ==> a[|b| - 1] == b[|b| - 1]))
  {
    if |a| <= |b| {
      assert a == s[..|b|][..|a|];
    } else {
      assert b == s[..|a|][..|b|];
    }
  }

  lemma CloseTurn(s: string, pos: nat, tag: string, acc: seq<Node>, name: string, next: nat)
    requires pos + 1 < |s| && s[pos] == '<' && s[pos + 1] == '/' && !Match(s, pos, "</" + tag)
    requires ParseElement(s, pos) == Parsed(Element(name, [Attribute("/", "")], []), next)
    ensures ParseChildren(s, pos, tag, acc) == Forest(acc, next)
  {
    NotADeclaration(s, pos);
    ScanTo(s, pos, IsSpace, pos);
    var n := Element(name, [Attribute("/", "")], []);
    assert n.attrs[0].key == "/";
    assert IsClosingTag(n);
    hide ParseElement, CommentEnd, Match, IsClosingTag, Scan;
  }

  lemma ElementEnds(s: string, pos: nat, n: Item, at: nat)
    requires n.Tagged? && TagFits(n.tag) && TagAttrsFit(n.attrs, n.trail, n.slash) && at <= |s|
    requires !IsVoid(GoStrings.Lower(n.tag)) && At(s, pos, WriteOpen(n.tag, n.attrs, n.trail, n.slash))
    requires ParseChildren(s, pos + |WriteOpen(n.tag, n.attrs, n.trail, n.slash)|, GoStrings.Lower(n.tag), []) ==
             Forest(Meant(n.children), at)
    ensures pos < |s| && s[pos] == '<'
    ensures ParseElement(s, pos) == Parsed(MeantTag(n), if Match(s, at, "</") then PastGt(s, at + 2) else at)
  {
    hide At, AttrsFit, TagFits, Attrs, TagEnd, ParseChildren, IsVoid, WriteOpen, GoStrings.Lower, Match, PastGt;
    OpenReads(s, pos, n.tag, n.attrs, n.trail, n.slash);
  }

  /** The same happens to an element with nothing but blanks inside: its own closing tag is
      met as one of something else. */
  lemma BlankInside(s: string, pos: nat, n: Item, blanks: string, name: string, extra: string)
    requires n.Tagged? && TagFits(n.tag) && TagAttrsFit(n.attrs, n.trail, n.slash) && n.children == []
    requires !IsVoid(GoStrings.Lower(n.tag)) && Blanks(blanks) && blanks != "" && CloseFits(name, extra)
    requires At(s, pos, WriteOpen(n.tag, n.attrs, n.trail, n.slash) + (blanks + AnyClose(name, extra)))
    ensures pos < |s| && s[pos] == '<'
    ensures var end := pos + |WriteOpen(n.tag, n.attrs, n.trail, n.slash)| + |blanks| + |AnyClose(name, extra)|;
            && end <= |s|
            && ParseElement(s, pos) == Parsed(MeantTag(n), if Match(s, end, "</") then PastGt(s, end + 2) else end)
  {
    hide *;
    var open, close := WriteOpen(n.tag, n.attrs, n.trail, n.slash), AnyClose(name, extra);
    var tag, inside := GoStrings.Lower(n.tag), pos + |open|;
    AtSplit(s, pos, open, blanks + close);
    AtSplit(s, inside, blanks, close);
    var at := inside + |blanks|;
    ClosingTagReads(s, at, name, extra);
    AtInside(s, at, close);
    BlankTurn(s, inside, tag, [], blanks, name, at + |close|);
    NoMeaning(n.children);
    ElementEnds(s, pos, n, at + |close|);
  }

  lemma NoMeaning(f: seq<Item>)
    requires f == []
    ensures Meant(f) == []
  {
  }

  lemma BlankTurn(s: string, pos: nat, tag: string, acc: seq<Node>, blanks: string, name: string, next: nat)
    requires Blanks(blanks) && blanks != "" && At(s, pos, blanks)
    requires var at := pos + |blanks|;
             && at + 1 < |s| && s[at] == '<' && s[at + 1] == '/'
             && ParseElement(s, at) == Parsed(Element(name, [Attribute("/", "")], []), next)
    ensures ParseChildren(s, pos, tag, acc) == Forest(acc, next)
  {
    var at := pos + |blanks|;
    SkipsBlanks(s, pos, blanks);
    AtChars(s, pos, blanks);
    BlankIsSpace(blanks[0]);
    hide At;
    assert s[pos] == blanks[0];
    NoCloseFrom(s, pos);
    NotADeclaration(s, at);
    var n := Element(name, [Attribute("/", "")], []);
    assert n.attrs[0].key == "/";
    assert IsClosingTag(n);
    hide ParseElement, CommentEnd, Match, IsClosingTag, Scan, SkipSpace;
  }

  // ---------- an opening tag and what follows ----------

  /** The fourteen elements that take no children, and all others do. */
  lemma VoidTakesNone(tag: string, s: string)
    requires TagFits(tag) && s == "<" + (tag + ">x")
    ensures var name := GoStrings.Lower(tag);
            Parse(s) == if name in ["area", "base", "br", "col", "embed", "hr", "img", "input", "link", "meta",
                                    "param", "source", "track", "wbr"]
                        then Tree([Element(name, [], []), Text("x")], |s|)
                        else Tree([Element(name, [], [Text("x")])], |s|)
  {
    var name, x := GoStrings.Lower(tag), Words("", "x");
    hide GoStrings.Lower, TagFits, Parse;
    BareTag(tag, x);
    if IsVoid(name) {
      VoidAlone(tag, x, s);
    } else {
      var f := [Tagged("", tag, [], "", false, [x], "", "")];
      OneChild(tag, x, f, s);
    }
  }

  lemma BareTag(tag: string, x: Item)
    requires x == Words("", "x")
    ensures WriteOpen(tag, [], "", false) == "<" + (tag + ">") && TagAttrsFit([], "", false)
    ensures Write([x]) == "x" && Meant([x]) == [Text("x")] && MeantAttrs([]) == []
  {
    assert [x][1..] == [];
    assert WriteAttrs([]) + WriteEnd("", false) == ">";
  }

  lemma VoidAlone(tag: string, x: Item, s: string)
    requires x == Words("", "x") && TagFits(tag) && IsVoid(GoStrings.Lower(tag)) && s == "<" + (tag + ">x")
    ensures Parse(s) == Tree([Element(GoStrings.Lower(tag), [], []), Text("x")], |s|)
  {
    hide GoStrings.Lower, TagFits, Parse, IsVoid;
    BareTag(tag, x);
    var n := Tagged("", tag, [], "", false, [], "", "");
    var f := [n, x];
    assert f[1..] == [x] && Write(f) == "" + (WriteBody(n) + Write([x]));
    assert Write(f) + "" == s;
    assert [x][1..] == [];
    assert Fits([x], "", true, Tag);
    ParseWritten(f, "", s);
    assert Meant(f) == MeantOne(n) + Meant([x]);
  }

  lemma OneChild(tag: string, x: Item, f: seq<Item>, s: string)
    requires x == Words("", "x") && TagFits(tag) && !IsVoid(GoStrings.Lower(tag)) && s == "<" + (tag + ">x")
    requires f == [Tagged("", tag, [], "", false, [x], "", "")]
    ensures Parse(s) == Tree([Element(GoStrings.Lower(tag), [], [Text("x")])], |s|)
  {
    hide GoStrings.Lower, TagFits, Parse, IsVoid;
    BareTag(tag, x);
    assert Deep(f[0].children, 0);
    assert f[..0] == [] && Write(f[..0]) == "" && f[1..] == [] && [x][1..] == [];
    assert WriteOpened([x], "", 0, "") == "x" + ("" + "");
    assert WriteOpened(f, "", 1, "") == "" + ("" + (WriteOpen(tag, [], "", false) + WriteOpened([x], "", 0, "")));
    assert WriteOpened(f, "", 1, "") == s;
    assert Fits([x], "", false, Start) && Fits(f, "", true, Start);
    OpenAtEnd(f, "", 1, "", s);
    assert Meant(f) == MeantOne(f[0]) + [];
  }

  /** What stands behind an equals sign at the end of the text: blanks, the beginning of a
      quoted value, or a bare value. */
  ghost predicate LastValue(text: string, val: string) {
    || (Blanks(text) && val == "")
    || (text != "" && (text[0] == '"' || text[0] == '\'') && val == text[1..] && text[0] !in val)
    || (text == val != "" && val[0] !in "\"'" && Solid(val, ">"))
  }

  /** A text that stops inside a tag still gives the tag and the value so far; a quote that
      is never closed takes the rest of the text. */
  lemma OpenTag(tag: string, key: string, text: string, val: string, s: string)
    requires TagFits(tag) && Solid(key, "=>") && (key != "" ==> key[0] != '/') && LastValue(text, val)
    requires s == "<" + (tag + (" " + (key + ("=" + text))))
    ensures Parse(s) ==
            Tree([Element(GoStrings.Lower(tag), [Attribute(GoStrings.Lower(key), val)], [])], |s|)
  {
    var rest := " " + (key + ("=" + text));
    AtWhole(s);
    hide At, TagFits, GoStrings.Lower, Attrs, ParseElement, ParseTop, Solid, TagEnd, LastValue;
    BlankEndsName(' ');
    NameReads(s, 0, tag, rest);
    TagPlain(tag);
    AttrRunsOut(s, 1 + |tag|, key, text, val);
    OpenIsPlain(s, 0);
    QuotedElement(s, tag, [Attribute(GoStrings.Lower(key), val)]);
    hide *;
    var n := Element(GoStrings.Lower(tag), [Attribute(GoStrings.Lower(key), val)], []);
    StartPlain(s);
    KeyNotSlash(n, key, val);
    TagTurn(s, 0, "", [], n, |s|);
    SkipAtEnd(s);
    TopStop(s, [] + [n]);
    ParseIs(s);
  }

  lemma StartPlain(s: string)
    requires PlainStart(s, 0)
    ensures SkipSpace(s, 0) == 0
  {
  }

  lemma SkipAtEnd(s: string)
    ensures SkipSpace(s, |s|) == |s|
  {
  }

  lemma KeyNotSlash(n: Node, key: string, val: string)
    requires n.Element? && n.attrs == [Attribute(GoStrings.Lower(key), val)] && (key != "" ==> key[0] != '/')
    ensures !IsClosingTag(n)
  {
    NoSlashKey(key);
  }

  lemma AttrRunsOut(s: string, pos: nat, key: string, text: string, val: string)
    requires Solid(key, "=>") && (key != "" ==> key[0] != '/') && LastValue(text, val)
    requires At(s, pos, " " + (key + ("=" + text))) && pos + |key| + |text| + 2 == |s|
    ensures Attrs(s, pos, []) == ([Attribute(GoStrings.Lower(key), val)], |s|)
  {
    hide At, GoStrings.Lower, Attrs, LastValue;
    var value := "=" + text;
    AtSplit(s, pos, " ", key + value);
    AtChars(s, pos, " ");
    KeyScans(s, pos + 1, key, value);
    AtSplit(s, pos + 1, key, value);
    AtSplit(s, pos + 1 + |key|, "=", text);
    OpenValue(s, pos + 2 + |key|, text, val);
    SkipsBlanks(s, pos, " ");
    KeyBegins(s, pos + 1, key, value);
    AttrOnly(s, pos, pos + 1, Attribute(GoStrings.Lower(key), val));
  }

  lemma KeyBegins(s: string, pos: nat, key: string, value: string)
    requires Solid(key, "=>") && (key != "" ==> key[0] != '/') && value != "" && value[0] == '='
    requires At(s, pos, key + value)
    ensures pos < |s| && !IsSpace(s[pos]) && !EndsAttrs(s, pos)
  {
    AtChars(s, pos, key + value);
    assert s[pos] == (key + value)[0];
    BlankIsSpace(s[pos]);
  }

  lemma AttrOnly(s: string, pos: nat, start: nat, a: Attribute)
    requires pos < |s| && s[pos] == ' ' && SkipSpace(s, pos) == start < |s|
    requires !IsSpace(s[start]) && !EndsAttrs(s, start) && OneAttr(s, start) == (a, |s|)
    ensures Attrs(s, pos, []) == ([a], |s|)
  {
    hide OneAttr, IsSpace;
    assert [] + [a] == [a];
    assert Attrs(s, |s|, [a]) == ([a], |s|);
  }

  lemma OpenValue(s: string, pos: nat, text: string, val: string)
    requires LastValue(text, val) && At(s, pos, text) && pos + |text| == |s|
    ensures AttrValue(s, pos) == (val, |s|)
  {
    if Blanks(text) && val == "" {
      SkipsBlanks(s, pos, text);
    } else {
      AtChars(s, pos, text);
      hide At;
      assert s[pos] == text[0] && s[pos..] == text;
      BlankIsSpace(s[pos]);
      ScanTo(s, pos, IsSpace, pos);
      if text[0] == '"' || text[0] == '\'' {
        OpenQuote(s, pos, text, val);
      } else {
        SolidScans(s, pos, text, ">");
        ScanTo(s, pos, IsBareChar, |s|);
      }
    }
  }

  lemma OpenQuote(s: string, pos: nat, text: string, val: string)
    requires pos + |text| == |s| && s[pos..] == text && text != "" && val == text[1..] && text[0] !in val
    requires text[0] == '"' || text[0] == '\''
    ensures Scan(s, pos + 1, if text[0] == '"' then NotDouble else NotSingle) == |s| && s[pos + 1..|s|] == val
  {
    assert forall i :: 0 <= i < |val| ==> val[i] in val;
    assert forall i :: pos < i < |s| ==> s[i] == val[i - pos - 1];
    ScanTo(s, pos + 1, if text[0] == '"' then NotDouble else NotSingle, |s|);
  }

  lemma QuotedElement(s: string, tag: string, attrs: seq<Attribute>)
    requires 1 + |tag| <= |s| && 1 < |s| && s[0] == '<' && s[1] != '/' && Scan(s, 1, IsNameChar) == 1 + |tag|
    requires s[1..1 + |tag|] == tag && Attrs(s, 1 + |tag|, []) == (attrs, |s|)
    ensures ParseElement(s, 0) == Parsed(Element(GoStrings.Lower(tag), attrs, []), |s|)
  {
    hide Attrs, GoStrings.Lower, IsVoid;
  }

  /** The bytes of a name: besides letters, digits, hyphen and underscore those that stand for
      a letter in Latin-1. */
  lemma NameCharIs(c: char)
    ensures IsNameChar(c) <==>
            || 'a' <= c <= 'z' || 'A' <= c <= 'Z' || '0' <= c <= '9' || c == '-' || c == '_'
            || c == '\U{AA}' || c == '\U{B5}' || c == '\U{BA}'
            || '\U{C0}' <= c <= '\U{D6}' || '\U{D8}' <= c <= '\U{F6}' || '\U{F8}' <= c <= '\U{FF}'
  {
  }
}
