/** Shared vocabulary: bytes, optional values and concatenation. */
module Common {

  type Byte = b: int | 0 <= b < 256
  type Bytes = seq<Byte>

  datatype Option<+T> = None | Some(value: T)

  datatype Result<+T, +E> = Ok(value: T) | Err(error: E)

  /** All parts one after the other. */
  function Concat<T>(parts: seq<seq<T>>): seq<T> {
    if parts == [] then [] else parts[0] + Concat(parts[1..])
  }

  lemma {:induction false} ConcatAppend<T>(left: seq<seq<T>>, right: seq<seq<T>>)
    ensures Concat(left + right) == Concat(left) + Concat(right)
  {
    if left == [] {
      assert left + right == right;
    } else {
      assert (left + right)[1..] == left[1..] + right;
      ConcatAppend(left[1..], right);
    }
  }

  lemma ConcatOne<T>(parts: seq<seq<T>>, last: seq<T>)
    ensures Concat(parts + [last]) == Concat(parts) + last
  {
    ConcatAppend(parts, [last]);
    assert Concat([last]) == last;
  }

  /** A prefix of the parts concatenates to a prefix of the whole. */
  lemma ConcatPrefix<T>(parts: seq<seq<T>>, whole: seq<seq<T>>)
    requires parts <= whole
    ensures Concat(parts) <= Concat(whole)
  {
    assert whole == parts + whole[|parts|..];
    ConcatAppend(parts, whole[|parts|..]);
  }

  /** No element occurs twice. */
  ghost predicate Distinct<T>(s: seq<T>) {
    forall i, j :: 0 <= i < j < |s| ==> s[i] != s[j]
  }

  // ---------- strings ----------

  predicate OccursAt(s: string, sub: string, i: nat) {
    i + |sub| <= |s| && s[i..i + |sub|] == sub
  }

  // ---------- arithmetic ----------

  function Min(a: real, b: real): real {
    if a < b then a else b
  }

  lemma MulLe(a: nat, b: nat, c: nat)
    requires a <= b
    ensures a * c <= b * c
  {
  }

  /** Quotient and remainder are unique. */
  lemma SameParts(q: nat, r: nat, q': nat, r': nat, unit: nat)
    requires r < unit && r' < unit && q * unit + r == q' * unit + r'
    ensures q == q' && r == r'
  {
    if q < q' {
      MulLe(q + 1, q', unit);
    } else if q' < q {
      MulLe(q' + 1, q, unit);
    }
  }
}
