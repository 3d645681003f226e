/** Functions of Go's standard strings package, over ASCII text. */
module GoStrings {

  predicate IsSpace(c: char) {
    c in " \t\n\r\U{B}\U{C}"
  }

  function LowerChar(c: char): char {
    if 'A' <= c <= 'Z' then (c as int + 32) as char else c
  }

  function Lower(s: string): (r: string)
    ensures |r| == |s|
  {
    seq(|s|, i requires 0 <= i < |s| => LowerChar(s[i]))
  }

  function TrimSpace(s: string): (r: string)
    ensures r == "" || (!IsSpace(r[0]) && !IsSpace(r[|r| - 1]))
    ensures |r| <= |s| && forall c :: c in r ==> c in s
  {
    if s == "" then ""
    else if IsSpace(s[0]) then TrimSpace(s[1..])
    else if IsSpace(s[|s| - 1]) then TrimSpace(s[..|s| - 1])
    else s
  }

  function TrimPrefix(s: string, prefix: string): string {
    if prefix <= s then s[|prefix|..] else s
  }

  /** Lower-casing letter by letter. */
  lemma LowerIs(s: string, i: nat, k: nat)
    requires i < |s| && k < 26
    ensures s[i] == "ABCDEFGHIJKLMNOPQRSTUVWXYZ"[k] ==> Lower(s)[i] == "abcdefghijklmnopqrstuvwxyz"[k]
    ensures s[i] !in "ABCDEFGHIJKLMNOPQRSTUVWXYZ" ==> Lower(s)[i] == s[i]
  {
    var upper, lower := "ABCDEFGHIJKLMNOPQRSTUVWXYZ", "abcdefghijklmnopqrstuvwxyz";
    assert upper[k] as int == 'A' as int + k && lower[k] as int == 'a' as int + k;
    if 'A' <= s[i] <= 'Z' {
      assert upper[s[i] as int - 'A' as int] == s[i];
    }
  }

  /** Spaces around a text come off, and nothing else. */
  lemma {:induction false} TrimAround(before: string, core: string, after: string)
    requires forall c :: c in before + after ==> c in " \t\n\r\U{B}\U{C}"
    requires core != "" ==> core[0] !in " \t\n\r\U{B}\U{C}" && core[|core| - 1] !in " \t\n\r\U{B}\U{C}"
    ensures TrimSpace(before + core + after) == core
    decreases |before| + |after|
  {
    var s := before + core + after;
    if before != "" {
      assert before[0] in before + after;
      assert s[1..] == before[1..] + core + after;
      TrimAround(before[1..], core, after);
    } else if after != "" {
      assert after[0] in before + after && after[|after| - 1] in before + after;
      if core == "" {
        assert s[1..] == before + core + after[1..];
        TrimAround(before, core, after[1..]);
      } else {
        assert s[..|s| - 1] == before + core + after[..|after| - 1];
        TrimAround(before, core, after[..|after| - 1]);
      }
    } else {
      assert s == core;
    }
  }
}
