/** Well-formed text that stops inside a closing tag, and when the parser panics on it. */
module HtmlCutOff {
  import opened HtmlGrammar
  import GoStrings
  import opened HtmlRoundTrip

  /** An element still open where the text stops, and its siblings before it. */
  datatype Frame = Frame(before: seq<Node>, tag: string, attrs: seq<Attribute>)

  predicate FrameOk(f: Frame) {
    ForestOk(f.before) && TagOk(f.tag) && AttrsOk(f.attrs) && !IsVoid(f.tag)
  }

  predicate FramesOk(frames: seq<Frame>) {
    forall i :: 0 <= i < |frames| ==> FrameOk(frames[i])
  }

  /** A closing tag cut off before its end. */
  function Stub(rest: string): string {
    "</" + rest
  }

  /** Only one element is open, and the cut closing tag begins with its name. */
  predicate OwnClose(frames: seq<Frame>, rest: string) {
    |frames| == 1 && frames[0].tag <= rest
  }

  /** The open elements from the outermost in, the nodes complete inside the innermost, and
      the beginning of a closing tag. */
  function CutText(frames: seq<Frame>, last: seq<Node>, rest: string): string
    decreases |frames|, 1
  {
    if frames == [] then ShowForest(last) + Stub(rest)
    else ShowForest(frames[0].before) + Opened(frames, last, rest)
  }

  function Opened(frames: seq<Frame>, last: seq<Node>, rest: string): string
    requires frames != []
    decreases |frames|, 0
  {
    ShowOpen(frames[0].tag, frames[0].attrs) + CutText(frames[1..], last, rest)
  }

  /** x is what is left of s from pos on. */
  ghost predicate Ends(s: string, pos: nat, x: string) {
    At(s, pos, x) && pos + |x| == |s|
  }

  lemma EndsSplit(s: string, pos: nat, x: string, y: string)
    requires Ends(s, pos, x + y)
    ensures At(s, pos, x) && Ends(s, pos + |x|, y)
  {
    AtSplit(s, pos, x, y);
  }

  // ---------- complete nodes before the cut ----------

  /** Both loops read a well-formed forest that a '<' follows. */
  lemma {:induction false} ForestTurns(s: string, pos: nat, tag: string, acc: seq<Node>, f: seq<Node>, close: string)
    requires ForestOk(f) && close != "" && close[0] == '<' && At(s, pos, ShowForest(f) + close)
    ensures var next := pos + |ShowForest(f)|;
            && ParseChildren(s, pos, tag, acc) == ParseChildren(s, next, tag, acc + f)
            && ParseTop(s, pos, acc) == ParseTop(s, next, acc + f)
    decreases |f|
  {
    hide At, ParseElement, ParseTop, ParseChildren, Show;
    if f == [] {
      assert acc + f == acc;
    } else {
      var n, next := f[0], pos + |Show(f[0])|;
      if n.Element? {
        FirstChild(s, pos, f, close);
        ElementBack(s, pos, n);
      }
      NodeTurn(s, pos, tag, acc, f, close);
      ForestTurns(s, next, tag, acc + [n], f[1..], close);
      assert acc + [n] + f[1..] == acc + f;
    }
  }

  // ---------- the cut closing tag ----------

  lemma CutRunsOut(s: string, pos: nat, rest: string, from: nat)
    requires Ends(s, pos, Stub(rest)) && '>' !in rest && pos <= from <= |s|
    ensures pos + 1 < |s| && s[pos] == '<' && s[pos + 1] == '/' && Match(s, pos, "</")
    ensures PastGt(s, from) == |s| + 1
  {
    AtChars(s, pos, Stub(rest));
    AtSplit(s, pos, "</", rest);
    AtChars(s, pos, "</");
    AtChars(s, pos + 2, rest);
    forall i | from <= i < |s|
      ensures NotGt(s[i])
    {
      if i >= pos + 2 {
        assert s[i] == rest[i - (pos + 2)];
      }
    }
    ScanTo(s, from, NotGt, |s|);
  }

  /** Read as an element, it ends one past the end of the text. */
  lemma CutElement(s: string, pos: nat, rest: string)
    requires Ends(s, pos, Stub(rest)) && '>' !in rest
    ensures pos < |s| && s[pos] == '<'
    ensures ParseElement(s, pos).Parsed? && ParseElement(s, pos).pos == |s| + 1
    ensures IsClosingTag(ParseElement(s, pos).node)
  {
    CutRunsOut(s, pos, rest, pos);
    var end := Scan(s, pos + 2, IsNameChar);
    CutRunsOut(s, pos, rest, end);
    assert Attribute("/", "") == ParseElement(s, pos).node.attrs[0];
  }

  lemma CutMatches(s: string, pos: nat, tag: string, rest: string)
    requires Ends(s, pos, Stub(rest))
    ensures Match(s, pos, "</" + tag) <==> tag <= rest
  {
    AtChars(s, pos, Stub(rest));
    assert s[pos..] == Stub(rest);
    assert |tag| <= |rest| ==> s[pos..pos + 2 + |tag|] == ("</" + rest)[..2 + |tag|] == "</" + rest[..|tag|];
    assert ("</" + tag)[2..] == tag;
    assert |tag| <= |rest| ==> ("</" + rest[..|tag|])[2..] == rest[..|tag|];
  }

  lemma CutStart(s: string, pos: nat, rest: string)
    requires Ends(s, pos, Stub(rest)) && '>' !in rest
    ensures SkipSpace(s, pos) == pos && Match(s, pos, "<")
    ensures !Match(s, pos, "<!--") && !Match(s, pos, "<!DOCTYPE") && !Match(s, pos, "<!doctype")
  {
    CutRunsOut(s, pos, rest, pos);
    ScanTo(s, pos, IsSpace, pos);
    assert s[pos..pos + 1] == [s[pos]];
    if Match(s, pos, "<!--") { FirstTwo(s, pos, "<!--"); }
    if Match(s, pos, "<!DOCTYPE") { FirstTwo(s, pos, "<!DOCTYPE"); }
    if Match(s, pos, "<!doctype") { FirstTwo(s, pos, "<!doctype"); }
  }

  /** A loop over children stops in front of its own closing tag, and behind another one. */
  lemma CutChildren(s: string, pos: nat, tag: string, acc: seq<Node>, rest: string)
    requires Ends(s, pos, Stub(rest)) && '>' !in rest
    ensures ParseChildren(s, pos, tag, acc) == Forest(acc, if tag <= rest then pos else |s| + 1)
  {
    CutRunsOut(s, pos, rest, pos);
    CutMatches(s, pos, tag, rest);
    CutStart(s, pos, rest);
    CutElement(s, pos, rest);
    hide ParseElement, IsClosingTag, SkipSpace, Match, Ends;
  }

  // ---------- open elements around it ----------

  /** What the parser makes of an open element: cut in its own closing tag it gets through,
      with the cursor past the end; otherwise it crashes. */
  ghost predicate Cut(s: string, own: bool, r: ElementResult) {
    if own then r.Parsed? && r.pos == |s| + 1 && !IsClosingTag(r.node) else r == Crash
  }

  /** An opening tag of f stands in s at pos. */
  ghost predicate Opens(s: string, pos: nat, f: Frame) {
    FrameOk(f) && At(s, pos, ShowOpen(f.tag, f.attrs))
  }

  function Inside(pos: nat, f: Frame): nat {
    pos + |ShowOpen(f.tag, f.attrs)|
  }

  function NextOpen(pos: nat, f: Frame): nat {
    pos + |ShowForest(f.before)|
  }

  /** The element of f, from what the loop over its children came to. */
  function ElementOf(s: string, f: Frame, c: ForestResult): ElementResult {
    match c
    case ForestCrash => Crash
    case Forest(nodes, at) =>
      if at > |s| then Crash
      else Parsed(Element(f.tag, f.attrs, nodes), if Match(s, at, "</") then PastGt(s, at + 2) else at)
  }

  lemma OpensOk(s: string, pos: nat, f: Frame)
    requires Opens(s, pos, f)
    ensures FrameOk(f) && TagOk(f.tag) && AttrsOk(f.attrs) && !IsVoid(f.tag)
  {
    hide At, TagOk, AttrsOk, IsVoid, ForestOk, ShowOpen;
  }

  lemma StubStart(rest: string)
    ensures Stub(rest) != "" && Stub(rest)[0] == '<'
  {
  }

  lemma OpensStart(s: string, pos: nat, f: Frame)
    requires Opens(s, pos, f)
    ensures PlainStart(s, pos) && pos < |s| && s[pos] == '<'
  {
    OpenBack(s, pos, f.tag, f.attrs);
    PlainStartFrom(s, pos);
  }

  /** An opening tag is read back, and the rest is up to the loop over the children. */
  lemma OpensElement(s: string, pos: nat, f: Frame)
    requires Opens(s, pos, f)
    ensures pos < |s| && s[pos] == '<'
    ensures ParseElement(s, pos) == ElementOf(s, f, ParseChildren(s, Inside(pos, f), f.tag, []))
  {
    hide At, ParseChildren, Match, PastGt, Attrs, TagEnd, IsVoid, TagOk, AttrsOk, Scan;
    hide GoStrings.Lower, ShowOpen, ForestOk;
    OpensOk(s, pos, f);
    OpenBack(s, pos, f.tag, f.attrs);
  }

  lemma InnermostCut(s: string, f: Frame, nodes: seq<Node>, cut: nat, own: bool)
    requires FrameOk(f) && cut <= |s| && Match(s, cut, "</") && PastGt(s, cut + 2) == |s| + 1
    ensures Cut(s, own, ElementOf(s, f, Forest(nodes, if own then cut else |s| + 1)))
  {
    hide Match, PastGt;
  }

  /** The loop over the innermost element's children gets to the cut. */
  lemma InnermostReads(s: string, pos: nat, f: Frame, last: seq<Node>, rest: string)
    requires ForestOk(last) && '>' !in rest
    requires Ends(s, Inside(pos, f), ShowForest(last) + Stub(rest))
    ensures var cut := Inside(pos, f) + |ShowForest(last)|;
            && Ends(s, cut, Stub(rest)) && cut + 2 <= |s|
            && ParseChildren(s, Inside(pos, f), f.tag, []) ==
               Forest([] + last, if f.tag <= rest then cut else |s| + 1)
  {
    hide *;
    var inside := Inside(pos, f);
    var cut := inside + |ShowForest(last)|;
    EndsSplit(s, inside, ShowForest(last), Stub(rest));
    EndsIsAt(s, inside, ShowForest(last) + Stub(rest));
    StubStart(rest);
    ForestTurns(s, inside, f.tag, [], last, Stub(rest));
    CutChildren(s, cut, f.tag, [] + last, rest);
    CutRunsOut(s, cut, rest, cut);
  }

  lemma EndsIsAt(s: string, pos: nat, x: string)
    requires Ends(s, pos, x)
    ensures At(s, pos, x)
  {
  }

  lemma Innermost(s: string, pos: nat, f: Frame, last: seq<Node>, rest: string)
    requires Opens(s, pos, f) && ForestOk(last) && '>' !in rest
    requires Ends(s, Inside(pos, f), ShowForest(last) + Stub(rest))
    ensures pos < |s| && s[pos] == '<' && Cut(s, f.tag <= rest, ParseElement(s, pos))
  {
    hide *;
    var cut := Inside(pos, f) + |ShowForest(last)|;
    OpensOk(s, pos, f);
    OpensElement(s, pos, f);
    InnermostReads(s, pos, f, last, rest);
    CutRunsOut(s, cut, rest, cut + 2);
    InnermostCut(s, f, [] + last, cut, f.tag <= rest);
  }

  /** A child that ends past the end, or crashes, takes its parent with it. */
  lemma ChildCrashes(s: string, pos: nat, tag: string, acc: seq<Node>, own: bool)
    requires PlainStart(s, pos) && s[pos] == '<' && Cut(s, own, ParseElement(s, pos))
    ensures var c := ParseChildren(s, pos, tag, acc); c.ForestCrash? || c.pos > |s|
  {
    hide ParseElement, IsClosingTag;
  }

  lemma OuterCut(s: string, f: Frame, c: ForestResult)
    requires c.ForestCrash? || c.pos > |s|
    ensures Cut(s, false, ElementOf(s, f, c))
  {
  }

  /** What follows an opening tag, and the next opening tag, where the text says. */
  lemma OpenedSplit(s: string, pos: nat, frames: seq<Frame>, last: seq<Node>, rest: string)
    requires frames != [] && FramesOk(frames) && Ends(s, pos, Opened(frames, last, rest))
    ensures Opens(s, pos, frames[0]) && FramesOk(frames[1..])
    ensures Ends(s, Inside(pos, frames[0]), CutText(frames[1..], last, rest))
  {
    assert FrameOk(frames[0]);
    EndsSplit(s, pos, ShowOpen(frames[0].tag, frames[0].attrs), CutText(frames[1..], last, rest));
  }

  lemma CutTextSplit(s: string, pos: nat, frames: seq<Frame>, last: seq<Node>, rest: string)
    requires frames != [] && FramesOk(frames) && Ends(s, pos, CutText(frames, last, rest))
    ensures Ends(s, NextOpen(pos, frames[0]), Opened(frames, last, rest))
  {
    EndsSplit(s, pos, ShowForest(frames[0].before), Opened(frames, last, rest));
  }

  /** Both loops get to the next open element. */
  lemma ReadsInto(s: string, pos: nat, tag: string, frames: seq<Frame>, last: seq<Node>, rest: string)
    requires frames != [] && FramesOk(frames) && Ends(s, pos, CutText(frames, last, rest))
    ensures ParseChildren(s, pos, tag, []) == ParseChildren(s, NextOpen(pos, frames[0]), tag, [] + frames[0].before)
    ensures ParseTop(s, pos, []) == ParseTop(s, NextOpen(pos, frames[0]), [] + frames[0].before)
    ensures SkipSpace(s, pos) == pos
  {
    hide *;
    CutTextIs(s, pos, frames, last, rest);
    ForestTurns(s, pos, tag, [], frames[0].before, Opened(frames, last, rest));
    AfterNode(s, pos, frames[0].before, Opened(frames, last, rest));
  }

  lemma CutTextIs(s: string, pos: nat, frames: seq<Frame>, last: seq<Node>, rest: string)
    requires frames != [] && FramesOk(frames) && Ends(s, pos, CutText(frames, last, rest))
    ensures ForestOk(frames[0].before)
    ensures At(s, pos, ShowForest(frames[0].before) + Opened(frames, last, rest))
    ensures Opened(frames, last, rest) != "" && Opened(frames, last, rest)[0] == '<'
    ensures NextOpen(pos, frames[0]) == pos + |ShowForest(frames[0].before)|
  {
    hide At, ForestOk, ShowForest;
    assert FrameOk(frames[0]);
  }

  lemma {:induction false} OpenElements(s: string, pos: nat, frames: seq<Frame>, last: seq<Node>, rest: string)
    requires frames != [] && FramesOk(frames) && ForestOk(last) && '>' !in rest
    requires Ends(s, pos, Opened(frames, last, rest))
    ensures pos < |s| && s[pos] == '<' && Cut(s, OwnClose(frames, rest), ParseElement(s, pos))
    decreases |frames|
  {
    var f, inner, inside := frames[0], frames[1..], Inside(pos, frames[0]);
    OpenedSplit(s, pos, frames, last, rest);
    if inner == [] {
      assert frames == [f];
      hide Opens, Inside, ShowForest, Ends, Cut, ParseElement, Opened;
      Innermost(s, pos, f, last, rest);
    } else {
      assert !OwnClose(frames, rest);
      hide *;
      var next := NextOpen(inside, inner[0]);
      CutTextSplit(s, inside, inner, last, rest);
      OpenElements(s, next, inner, last, rest);
      OpenedSplit(s, next, inner, last, rest);
      OpensStart(s, next, inner[0]);
      ChildCrashes(s, next, f.tag, [] + inner[0].before, OwnClose(inner, rest));
      ReadsInto(s, inside, f.tag, inner, last, rest);
      OpensElement(s, pos, f);
      OuterCut(s, f, ParseChildren(s, inside, f.tag, []));
    }
  }

  // ---------- the whole text ----------

  lemma TopOfOpen(s: string, pos: nat, acc: seq<Node>, own: bool)
    requires PlainStart(s, pos) && s[pos] == '<' && Cut(s, own, ParseElement(s, pos))
    ensures ParseTop(s, pos, acc).Panic? <==> !own
  {
    hide ParseElement, IsClosingTag;
  }

  lemma TopOfCut(s: string, pos: nat, acc: seq<Node>, rest: string)
    requires Ends(s, pos, Stub(rest)) && '>' !in rest
    ensures ParseTop(s, pos, acc).Tree?
  {
    CutRunsOut(s, pos, rest, pos);
    CutStart(s, pos, rest);
    CutElement(s, pos, rest);
    hide ParseElement, SkipSpace, Match, Ends;
    var r := ParseElement(s, pos);
    assert SkipSpace(s, r.pos) >= r.pos;
  }

  lemma NoneOpen(s: string, last: seq<Node>, rest: string)
    requires ForestOk(last) && '>' !in rest && s == ShowForest(last) + Stub(rest)
    ensures Parse(s).Tree?
  {
    AtWhole(s);
    assert Ends(s, 0, s);
    assert Parse(s) == ParseTop(s, SkipSpace(s, 0), []);
    hide *;
    EndsSplit(s, 0, ShowForest(last), Stub(rest));
    StubStart(rest);
    AfterNode(s, 0, last, Stub(rest));
    ForestTurns(s, 0, "", [], last, Stub(rest));
    TopOfCut(s, |ShowForest(last)|, [] + last, rest);
  }

  lemma SomeOpen(s: string, frames: seq<Frame>, last: seq<Node>, rest: string)
    requires frames != [] && FramesOk(frames) && ForestOk(last) && '>' !in rest && s == CutText(frames, last, rest)
    ensures Parse(s).Panic? <==> !OwnClose(frames, rest)
  {
    AtWhole(s);
    assert Ends(s, 0, s);
    assert Parse(s) == ParseTop(s, SkipSpace(s, 0), []);
    hide *;
    var next := NextOpen(0, frames[0]);
    CutTextSplit(s, 0, frames, last, rest);
    OpenElements(s, next, frames, last, rest);
    OpenedSplit(s, next, frames, last, rest);
    OpensStart(s, next, frames[0]);
    TopOfOpen(s, next, [] + frames[0].before, OwnClose(frames, rest));
    ReadsInto(s, 0, "", frames, last, rest);
  }

  /** A well-formed text cut off inside a closing tag makes the parser panic exactly when two
      elements are open there, or one whose name the closing tag does not begin with. */
  lemma CutPanicsIff(frames: seq<Frame>, last: seq<Node>, rest: string, s: string)
    requires FramesOk(frames) && ForestOk(last) && '>' !in rest && s == CutText(frames, last, rest)
    ensures Parse(s).Panic? <==> |frames| >= 2 || (|frames| == 1 && !(frames[0].tag <= rest))
  {
    if frames == [] {
      NoneOpen(s, last, rest);
    } else {
      SomeOpen(s, frames, last, rest);
    }
    hide Parse, FramesOk, ForestOk;
  }

  lemma OneOpen(tag: string, inner: seq<Frame>, rest: string)
    ensures CutText([Frame([], tag, [])] + inner, [], rest) == "<" + tag + ">" + CutText(inner, [], rest)
  {
    var frames := [Frame([], tag, [])] + inner;
    assert frames[1..] == inner;
    assert ShowForest([]) == "" && ShowOpen(tag, []) == "<" + tag + ">";
    hide ShowForest, ShowOpen;
    assert Opened(frames, [], rest) == "<" + tag + ">" + CutText(inner, [], rest);
  }

  /** The shortest kind of text that panics. */
  lemma DanglingCloseCanPanic()
    ensures Parse("<b><a></a").Panic?
  {
    var b, a := Frame([], "b", []), Frame([], "a", []);
    OneOpen("b", [a], "a");
    OneOpen("a", [], "a");
    assert CutText([], [], "a") == "</a" by {
      assert ShowForest([]) == "";
    }
    assert [b] + [a] == [b, a] && [a] + [] == [a];
    assert FrameOk(a) && FrameOk(b) && ForestOk([]);
    hide CutText, FrameOk, ForestOk, Parse, ShowForest;
    assert CutText([b, a], [], "a") == "<b><a></a";
    CutPanicsIff([b, a], [], "a", "<b><a></a");
  }
}
