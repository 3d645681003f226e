/** minstd's string functions, as used by its HTTP server. One char stands for one byte. */
module MinStrings {
  import opened Common

  predicate IsSpace(c: char) {
    c == ' ' || c == '\t' || c == '\n' || c == '\r'
  }

  lemma SpaceIs(c: char)
    ensures IsSpace(c) <==> c in " \t\n\r"
  {
  }

  predicate AllSpace(s: string) {
    forall i :: 0 <= i < |s| ==> s[i] in " \t\n\r"
  }

  /** No space at either end. */
  predicate Trimmed(s: string) {
    s == "" || (s[0] !in " \t\n\r" && s[|s| - 1] !in " \t\n\r")
  }

  /** The trimmed middle of a string. */
  function Trim(s: string): (r: string)
    ensures Trimmed(r) && |r| <= |s|
  {
    if s == "" then ""
    else if IsSpace(s[0]) then Trim(s[1..])
    else if IsSpace(s[|s| - 1]) then Trim(s[..|s| - 1])
    else s
  }

  lemma TrimFront(s: string, i: nat, j: nat)
    requires i < j <= |s| && IsSpace(s[i])
    ensures Trim(s[i..j]) == Trim(s[i + 1..j])
    ensures AllSpace(s[..i]) ==> AllSpace(s[..i + 1])
  {
    assert s[i..j][1..] == s[i + 1..j];
    SpaceIs(s[i]);
  }

  lemma TrimBack(s: string, i: nat, j: nat)
    requires i < j <= |s| && !IsSpace(s[i]) && IsSpace(s[j - 1])
    ensures Trim(s[i..j]) == Trim(s[i..j - 1])
    ensures AllSpace(s[j..]) ==> AllSpace(s[j - 1..])
  {
    assert s[i..j][..j - i - 1] == s[i..j - 1];
    SpaceIs(s[j - 1]);
  }

  method TrimSpace(s: string) returns (r: string)
    ensures r == Trim(s) && Trimmed(r)
    ensures exists i, j :: 0 <= i <= j <= |s| && r == s[i..j] && AllSpace(s[..i]) && AllSpace(s[j..])
  {
    var start, end := 0, |s|;
    assert s[0..|s|] == s;
    hide AllSpace, IsSpace;
    NoSpace(s);
    while start < end && IsSpace(s[start])
      invariant 0 <= start <= end == |s|
      invariant Trim(s[start..end]) == Trim(s)
      invariant AllSpace(s[..start])
    {
      TrimFront(s, start, end);
      start := start + 1;
    }
    while end > start && IsSpace(s[end - 1])
      invariant 0 <= start <= end <= |s|
      invariant start < end ==> !IsSpace(s[start])
      invariant Trim(s[start..end]) == Trim(s)
      invariant AllSpace(s[end..])
    {
      TrimBack(s, start, end);
      end := end - 1;
    }
    r := s[start..end];
    assert r == s[start..end] && AllSpace(s[..start]) && AllSpace(s[end..]);
  }

  lemma NoSpace(s: string)
    ensures AllSpace("") && AllSpace(s[..0]) && AllSpace(s[|s|..])
  {
  }

  lemma {:induction false} TrimBlank(s: string)
    requires AllSpace(s)
    ensures Trim(s) == ""
  {
    if s != "" {
      TrimBlank(s[1..]);
    }
  }

  /** Spaces around a trimmed text come off, and nothing else. */
  lemma {:induction false} TrimAround(before: string, core: string, after: string)
    requires AllSpace(before) && Trimmed(core) && AllSpace(after)
    ensures Trim(before + core + after) == core
    decreases |before| + |after|
  {
    var s := before + core + after;
    if before != "" {
      assert s[1..] == before[1..] + core + after;
      TrimAround(before[1..], core, after);
    } else if core == "" {
      assert s == after;
      TrimBlank(after);
    } else if after != "" {
      assert s[..|s| - 1] == before + core + after[..|after| - 1];
      TrimAround(before, core, after[..|after| - 1]);
    } else {
      assert s == core;
    }
  }

  /** Only blank texts are trimmed to nothing. */
  lemma {:induction false} TrimEmptyIff(s: string)
    ensures Trim(s) == "" <==> AllSpace(s)
    ensures forall c :: c in Trim(s) ==> c in s
    decreases |s|
  {
    if s != "" {
      SpaceIs(s[0]);
      SpaceIs(s[|s| - 1]);
      if IsSpace(s[0]) {
        TrimEmptyIff(s[1..]);
      } else if IsSpace(s[|s| - 1]) {
        TrimEmptyIff(s[..|s| - 1]);
      }
    }
  }

  // ---------- Index, Cut, SplitN ----------

  /** The first place from i on where sub occurs in s, or -1. */
  function IndexFrom(s: string, sub: string, i: nat): (r: int)
    ensures r == -1 || (i <= r && OccursAt(s, sub, r))
    ensures forall k :: i <= k && (r == -1 || k < r) ==> !OccursAt(s, sub, k)
    decreases |s| - i
  {
    if i + |sub| > |s| then -1
    else if OccursAt(s, sub, i) then i
    else IndexFrom(s, sub, i + 1)
  }

  method Index(s: string, sub: string) returns (r: int)
    ensures r == IndexFrom(s, sub, 0)
    ensures r == -1 || (0 <= r && OccursAt(s, sub, r))
    ensures forall k :: 0 <= k && (r == -1 || k < r) ==> !OccursAt(s, sub, k)
  {
    if |sub| == 0 {
      return 0;
    }
    if |sub| > |s| {
      return -1;
    }
    var i := 0;
    while i + |sub| <= |s|
      invariant 0 <= i
      invariant IndexFrom(s, sub, i) == IndexFrom(s, sub, 0)
      decreases |s| - i
    {
      if s[i..i + |sub|] == sub {
        return i;
      }
      i := i + 1;
    }
    return -1;
  }

  lemma FoundFirst(s: string, sub: string, i: nat)
    requires OccursAt(s, sub, i) && forall k :: 0 <= k < i ==> !OccursAt(s, sub, k)
    ensures IndexFrom(s, sub, 0) == i
  {
    var r := IndexFrom(s, sub, 0);
  }

  datatype Parts = Parts(before: string, after: string, found: bool)

  function CutAt(s: string, sep: string): Parts {
    var i := IndexFrom(s, sep, 0);
    if i < 0 then Parts(s, "", false) else Parts(s[..i], s[i + |sep|..], true)
  }

  method Cut(s: string, sep: string) returns (p: Parts)
    ensures p == CutAt(s, sep)
    ensures p.found ==> s == p.before + sep + p.after && forall k :: 0 <= k < |p.before| ==> !OccursAt(s, sep, k)
    ensures !p.found ==> p.before == s && p.after == "" && forall k :: 0 <= k ==> !OccursAt(s, sep, k)
  {
    var i := Index(s, sep);
    p := if i < 0 then Parts(s, "", false) else Parts(s[..i], s[i + |sep|..], true);
  }

  function Split(s: string, sep: string, n: int): (out: seq<string>)
    ensures n > 0 ==> 0 < |out| <= n
    decreases n
  {
    if n <= 0 then []
    else if sep == "" then [s]
    else
      var i := IndexFrom(s, sep, 0);
      if n == 1 || i < 0 then [s] else [s[..i]] + Split(s[i + |sep|..], sep, n - 1)
  }

  lemma SplitStops(s: string, sep: string, n: int)
    requires sep != "" && (n == 1 || (n > 0 && IndexFrom(s, sep, 0) < 0))
    ensures Split(s, sep, n) == [s]
  {
    hide IndexFrom, OccursAt;
  }

  lemma SplitSteps(s: string, sep: string, n: int, i: nat)
    requires sep != "" && n > 1 && IndexFrom(s, sep, 0) == i && i + |sep| <= |s|
    ensures Split(s, sep, n) == [s[..i]] + Split(s[i + |sep|..], sep, n - 1)
  {
    hide IndexFrom, OccursAt;
  }

  /** What the loop of SplitN still owes: the parts so far and the split of the rest. */
  ghost predicate Owes(out: seq<string>, rest: string, sep: string, n: int, all: seq<string>) {
    out + Split(rest, sep, n) == all
  }

  lemma OwesAfterCut(out: seq<string>, rest: string, sep: string, n: int, all: seq<string>, i: nat)
    requires Owes(out, rest, sep, n, all)
    requires sep != "" && n > 1 && IndexFrom(rest, sep, 0) == i && i + |sep| <= |rest|
    ensures Owes(out + [rest[..i]], rest[i + |sep|..], sep, n - 1, all)
  {
    SplitSteps(rest, sep, n, i);
    var first, more := [rest[..i]], Split(rest[i + |sep|..], sep, n - 1);
    hide Split, IndexFrom, OccursAt;
    assert out + (first + more) == out + first + more;
  }

  lemma OwesAtEnd(out: seq<string>, rest: string, sep: string, n: int, all: seq<string>)
    requires Owes(out, rest, sep, n, all)
    requires sep != "" && (n == 1 || (n > 0 && IndexFrom(rest, sep, 0) < 0))
    ensures out + [rest] == all
  {
    SplitStops(rest, sep, n);
  }

  method SplitN(s: string, sep: string, n: int) returns (out: seq<string>)
    ensures out == Split(s, sep, n)
    ensures n <= 0 ==> out == []
    ensures n > 0 && sep == "" ==> out == [s]
  {
    if n <= 0 {
      return [];
    }
    if |sep| == 0 {
      return [s];
    }
    out := [];
    var rest := s;
    ghost var all := Split(s, sep, n);
    assert Owes(out, rest, sep, n, all);
    hide Split, IndexFrom, Owes;
    while |out| < n - 1
      invariant |out| <= n - 1
      invariant Owes(out, rest, sep, n - |out|, all)
    {
      var i := Index(rest, sep);
      if i < 0 {
        break;
      }
      OwesAfterCut(out, rest, sep, n - |out|, all, i);
      out := out + [rest[..i]];
      rest := rest[i + |sep|..];
    }
    OwesAtEnd(out, rest, sep, n - |out|, all);
    out := out + [rest];
  }

  function Join(parts: seq<string>, sep: string): string {
    if parts == [] then ""
    else if |parts| == 1 then parts[0]
    else parts[0] + sep + Join(parts[1..], sep)
  }

  lemma JoinStep(first: string, more: seq<string>, sep: string)
    requires more != []
    ensures Join([first] + more, sep) == first + sep + Join(more, sep)
  {
    assert ([first] + more)[1..] == more;
  }

  ghost predicate Free(s: string, sep: string) {
    forall i: nat :: !OccursAt(s, sep, i)
  }

  /** Splitting loses nothing, cuts at every separator before the last part, and stops short
      of n parts only when no separator is left. */
  lemma {:induction false} SplitJoin(s: string, sep: string, n: int, out: seq<string>)
    requires n > 0 && sep != "" && out == Split(s, sep, n)
    ensures Join(out, sep) == s
    ensures AllFree(out, sep, n)
    decreases n
  {
    var i := IndexFrom(s, sep, 0);
    if n == 1 || i < 0 {
      SplitStops(s, sep, n);
    } else {
      var first, rest := s[..i], s[i + |sep|..];
      var more := Split(rest, sep, n - 1);
      PrefixFree(s, sep, i);
      SplitSteps(s, sep, n, i);
      SplitJoin(rest, sep, n - 1, more);
      assert s == first + sep + rest;
      hide *;
      JoinStep(first, more, sep);
      FreeStep(first, more, sep, n);
    }
  }

  /** No separator in any part but perhaps the last, and none there if it is not the n-th. */
  ghost predicate AllFree(out: seq<string>, sep: string, n: int) {
    forall k :: 0 <= k < |out| && (k < |out| - 1 || |out| < n) ==> Free(out[k], sep)
  }

  lemma FreeStep(first: string, more: seq<string>, sep: string, n: int)
    requires Free(first, sep) && AllFree(more, sep, n - 1)
    ensures AllFree([first] + more, sep, n)
  {
    hide Free;
    var out := [first] + more;
    forall k | 0 <= k < |out| && (k < |out| - 1 || |out| < n)
      ensures Free(out[k], sep)
    {
      if k > 0 {
        assert out[k] == more[k - 1];
      }
    }
  }

  lemma PrefixFree(s: string, sep: string, i: nat)
    requires i <= |s| && sep != "" && forall k: nat :: k < i ==> !OccursAt(s, sep, k)
    ensures Free(s[..i], sep)
  {
    forall j: nat
      ensures !OccursAt(s[..i], sep, j)
    {
      if j + |sep| <= i {
        assert s[..i][j..j + |sep|] == s[j..j + |sep|];
        assert !OccursAt(s, sep, j);
      }
    }
  }
}
