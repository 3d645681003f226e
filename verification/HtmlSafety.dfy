/** When the parser cannot run past the end of its text. */
module HtmlSafety {
  import opened HtmlGrammar
  import GoStrings

  /** Every "</" is followed by a '>' somewhere. */
  ghost predicate Closable(s: string) {
    forall i :: 0 <= i && i + 1 < |s| && s[i] == '<' && s[i + 1] == '/' ==> GtAfter(s, i)
  }

  ghost predicate GtAfter(s: string, pos: nat) {
    exists j :: pos <= j < |s| && s[j] == '>'
  }

  lemma PastGtInside(s: string, pos: nat)
    requires GtAfter(s, pos)
    ensures PastGt(s, pos) <= |s|
  {
    var j :| pos <= j < |s| && s[j] == '>';
    assert !(j < Scan(s, pos, NotGt));
  }

  /** The name of a closing tag stops before the '>' that follows it. */
  lemma GtAfterName(s: string, pos: nat)
    requires pos + 1 < |s| && s[pos] == '<' && s[pos + 1] == '/' && GtAfter(s, pos)
    ensures GtAfter(s, pos + 2) && GtAfter(s, Scan(s, pos + 2, IsNameChar))
  {
    var j :| pos <= j < |s| && s[j] == '>';
    assert !(j < Scan(s, pos + 2, IsNameChar));
  }

  lemma CloseInside(s: string, at: nat)
    requires Closable(s) && at <= |s| && Match(s, at, "</")
    ensures PastGt(s, at + 2) <= |s|
  {
    assert s[at] == s[at..at + 2][0] && s[at + 1] == s[at..at + 2][1];
    GtAfterName(s, at);
    PastGtInside(s, at + 2);
  }

  lemma ElementInside(s: string, pos: nat)
    requires Closable(s) && pos < |s| && s[pos] == '<'
    ensures ParseElement(s, pos).Parsed? && ParseElement(s, pos).pos <= |s|
    decreases |s| + 1 - pos, 0
  {
    if pos + 1 < |s| && s[pos + 1] == '/' {
      GtAfterName(s, pos);
      PastGtInside(s, Scan(s, pos + 2, IsNameChar));
    } else {
      var end := Scan(s, pos + 1, IsNameChar);
      var tag := GoStrings.Lower(s[pos + 1..end]);
      var inside := TagEnd(s, Attrs(s, end, []).1);
      if !IsVoid(tag) {
        ChildrenInside(s, inside, tag, []);
        var at := ParseChildren(s, inside, tag, []).pos;
        if Match(s, at, "</") {
          CloseInside(s, at);
        }
      }
    }
  }

  lemma ChildrenInside(s: string, pos: nat, tag: string, acc: seq<Node>)
    requires Closable(s) && pos <= |s|
    ensures ParseChildren(s, pos, tag, acc).Forest? && ParseChildren(s, pos, tag, acc).pos <= |s|
    decreases |s| + 1 - pos, 1
  {
    if pos < |s| && !Match(s, pos, "</" + tag) {
      var at := SkipSpace(s, pos);
      MatchLt(s, at);
      if Match(s, at, "<!--") {
        ChildrenInside(s, CommentEnd(s, at), tag, acc);
      } else if Match(s, at, "<") {
        ElementInside(s, at);
        var r := ParseElement(s, at);
        if !IsClosingTag(r.node) {
          ChildrenInside(s, SkipSpace(s, r.pos), tag, acc + [r.node]);
        }
      } else {
        var end := Scan(s, at, NotLt);
        ChildrenInside(s, end, tag, if at < end then acc + [Text(s[at..end])] else acc);
      }
    }
  }

  ghost predicate EndsInGt(s: string) {
    s != "" && s[|s| - 1] == '>'
  }

  lemma {:induction false} TopInside(s: string, pos: nat, acc: seq<Node>)
    requires Closable(s)
    ensures var r := ParseTop(s, pos, acc);
            !r.Panic? && (r.Tree? && EndsInGt(s) && pos <= |s| ==> r.end == |s|)
    decreases |s| + 1 - pos
  {
    if pos < |s| {
      MatchLt(s, pos);
      if Match(s, pos, "<!DOCTYPE") || Match(s, pos, "<!doctype") {
        if EndsInGt(s) {
          assert GtAfter(s, pos);
          PastGtInside(s, pos);
        }
        TopInside(s, SkipSpace(s, PastGt(s, pos)), acc);
      } else if Match(s, pos, "<!--") {
        if CommentCloses(s, pos) {
          TopInside(s, CommentEnd(s, pos), acc);
        }
      } else if Match(s, pos, "<") {
        ElementInside(s, pos);
        var r := ParseElement(s, pos);
        TopInside(s, SkipSpace(s, r.pos), acc + [r.node]);
      } else {
        var end := Scan(s, pos, NotLt);
        TopInside(s, end, acc + [Text(s[pos..end])]);
      }
    }
  }

  /** A text in which every "</" is closed somewhere never makes the parser panic. */
  lemma NoPanic(s: string)
    requires Closable(s)
    ensures !Parse(s).Panic?
  {
    TopInside(s, SkipSpace(s, 0), []);
  }

  /** A text that ends in '>' is parsed to its end and not beyond: the result is a tree or
      the unclosed-comment error. */
  lemma EndsInGtParses(s: string)
    requires EndsInGt(s)
    ensures Parse(s).UnclosedComment? || (Parse(s).Tree? && Parse(s).end == |s|)
  {
    forall i | 0 <= i && i + 1 < |s| && s[i] == '<' && s[i + 1] == '/'
      ensures GtAfter(s, i)
    {
      assert s[|s| - 1] == '>';
    }
    TopInside(s, SkipSpace(s, 0), []);
  }
}
