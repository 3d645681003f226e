/** relay's ring buffer of events, and the unbounded log it stands for. */
module RelayRing {
  import opened Common

  datatype Event = Event(
    id: string,
    topic: string,
    payload: Bytes,
    timestamp: int,
    metadata: map<string, string>,
    offset: int)

  const DEFAULT_SIZE := 256

  /** The values of the buffer's fields. */
  datatype Ring = Ring(slots: seq<Event>, head: nat, count: nat, nextID: nat)

  predicate WellFormed(r: Ring) {
    0 < |r.slots| && r.head < |r.slots| && r.count <= |r.slots| && r.count <= r.nextID
  }

  function Append(r: Ring, ev: Event): Ring
    requires WellFormed(r)
  {
    var size := |r.slots|;
    Ring(r.slots[r.head := ev.(offset := r.nextID)], (r.head + 1) % size,
         if r.count < size then r.count + 1 else r.count, r.nextID + 1)
  }

  /** The slot that holds the event with offset `off`, found from the oldest one. */
  function SlotOf(r: Ring, off: int): (i: int)
    requires WellFormed(r) && r.nextID - r.count <= off
    ensures 0 <= i < |r.slots|
  {
    var size := |r.slots|;
    var oldest := r.nextID - r.count;
    var oldestIdx := (r.head - r.count + size) % size;
    (oldestIdx + (off - oldest)) % size
  }

  function Replay(r: Ring, from: int): seq<Event>
    requires WellFormed(r)
  {
    if r.count == 0 || from >= r.nextID then []
    else
      var oldest := r.nextID - r.count;
      var first := if from < oldest then oldest else from;
      seq(r.nextID - first, i requires 0 <= i < r.nextID - first => r.slots[SlotOf(r, first + i)])
  }

  class RingBuffer {
    const slots: array<Event>
    var head: nat
    var count: nat
    var nextID: nat

    ghost function Value(): Ring
      reads this, slots
    {
      Ring(slots[..], head, count, nextID)
    }

    /** make fills the slots with the zero event. */
    constructor (size: int, zero: Event)
      ensures fresh(slots) && WellFormed(Value()) && count == nextID == head == 0
      ensures slots.Length == if size <= 0 then DEFAULT_SIZE else size
    {
      slots := new Event[if size <= 0 then DEFAULT_SIZE else size](_ => zero);
      head, count, nextID := 0, 0, 0;
    }

    method Add(ev: Event) returns (offset: nat)
      requires WellFormed(Value())
      modifies this, slots
      ensures offset == old(nextID)
      ensures Value() == Append(old(Value()), ev)
    {
      offset := nextID;
      nextID := nextID + 1;
      slots[head] := ev.(offset := offset);
      head := (head + 1) % slots.Length;
      if count < slots.Length {
        count := count + 1;
      }
    }

    method ReplayFrom(from: int) returns (out: seq<Event>)
      requires WellFormed(Value())
      ensures out == Replay(Value(), from)
    {
      if count == 0 || from >= nextID {
        return [];
      }
      var oldest := nextID - count;
      var first := if from < oldest then oldest else from;
      out := [];
      var oldestIdx := (head - count + slots.Length) % slots.Length;
      for off := first to nextID
        invariant |out| == off - first
        invariant forall i :: 0 <= i < |out| ==> out[i] == slots[SlotOf(Value(), first + i)]
      {
        var idx := (oldestIdx + (off - oldest)) % slots.Length;
        out := out + [slots[idx]];
      }
    }
  }

  // ---------- the log ----------

  function Retained(log: seq<Event>, size: nat): nat {
    if |log| < size then |log| else size
  }

  /** The buffer holds the last events of the log, each with its index as offset. */
  ghost predicate Agrees(r: Ring, log: seq<Event>) {
    && WellFormed(r)
    && r.nextID == |log|
    && r.count == Retained(log, |r.slots|)
    && r.head == |log| % |r.slots|
    && (forall k :: 0 <= k < |log| ==> log[k].offset == k)
    && (forall k :: |log| - r.count <= k < |log| ==> r.slots[k % |r.slots|] == log[k])
  }

  /** The events a reader gets who asks for everything from `from` on. */
  function Suffix(log: seq<Event>, size: nat, from: int): (out: seq<Event>) {
    var oldest := |log| - Retained(log, size);
    var first := if from < oldest then oldest else from;
    if first >= |log| then [] else log[first..]
  }

  lemma AtLeastOnce(k: int, size: nat)
    requires k >= 1
    ensures k * size >= size
  {
  }

  /** Two numbers with the same remainder are at least size apart. */
  lemma ModSpread(a: nat, b: nat, size: nat)
    requires size > 0 && a < b && a % size == b % size
    ensures a + size <= b
  {
    var k := b / size - a / size;
    assert b - a == k * size;
    AtLeastOnce(k, size);
  }

  lemma ModWindow(a: nat, b: nat, size: nat)
    requires size > 0 && a < b < a + size
    ensures a % size != b % size
  {
    if a % size == b % size {
      ModSpread(a, b, size);
    }
  }

  lemma DivModUnique(x: nat, q: nat, m: nat, size: nat)
    requires m < size && x == q * size + m
    ensures x % size == m
  {
    var k := x / size - q;
    assert k * size == m - x % size;
    if k >= 1 {
      AtLeastOnce(k, size);
    } else if k <= -1 {
      AtLeastOnce(-k, size);
      assert -k * size == x % size - m;
    }
  }

  lemma ModAdd(a: nat, d: nat, size: nat)
    requires size > 0
    ensures (a % size + d) % size == (a + d) % size
  {
    ModShift(a % size + d, a / size, size);
    assert a == a / size * size + a % size;
  }

  lemma {:induction false} ModShift(x: nat, k: nat, size: nat)
    requires size > 0
    ensures (x + k * size) % size == x % size
  {
    if k > 0 {
      ModShift(x, k - 1, size);
      assert x + k * size == (x + (k - 1) * size) + size;
      ModOne(x + (k - 1) * size, size);
    }
  }

  lemma ModOne(x: nat, size: nat)
    requires size > 0
    ensures (x + size) % size == x % size
  {
    var q, m := x / size, x % size;
    assert x + size == (q + 1) * size + m;
    DivModUnique(x + size, q + 1, m, size);
  }

  /** Appending to the buffer is appending to the log, also when it wraps around. */
  lemma AppendAgrees(r: Ring, log: seq<Event>, ev: Event)
    requires Agrees(r, log)
    ensures Agrees(Append(r, ev), log + [ev.(offset := |log|)])
  {
    var size, n := |r.slots|, |log|;
    var r', log' := Append(r, ev), log + [ev.(offset := n)];
    ModAdd(n, 1, size);
    forall k | n + 1 - r'.count <= k < n + 1
      ensures r'.slots[k % size] == log'[k]
    {
      if k < n {
        ModWindow(k, n, size);
      }
    }
  }

  lemma SlotIsIndex(r: Ring, log: seq<Event>, off: nat)
    requires Agrees(r, log) && |log| - r.count <= off < |log|
    ensures SlotOf(r, off) == off % |r.slots|
  {
    var size, n := |r.slots|, |log|;
    var oldest := n - r.count;
    assert (r.head - r.count + size) % size == oldest % size by {
      ModAdd(n, size - r.count, size);
      ModOne(oldest, size);
    }
    ModAdd(oldest, off - oldest, size);
  }

  /** Replaying the buffer is reading the log from the first offset still held. */
  lemma ReplayAgrees(r: Ring, log: seq<Event>, from: int)
    requires Agrees(r, log)
    ensures Replay(r, from) == Suffix(log, |r.slots|, from)
  {
    var out, want := Replay(r, from), Suffix(log, |r.slots|, from);
    var oldest := |log| - r.count;
    var first := if from < oldest then oldest else from;
    if out != [] {
      forall i | 0 <= i < |out| ensures out[i] == want[i] {
        SlotIsIndex(r, log, first + i);
      }
    }
  }

  /** The buffer after a run of appends, from the empty one. */
  function Appends(size: nat, zero: Event, evs: seq<Event>): (r: Ring)
    requires size > 0
    ensures WellFormed(r) && |r.slots| == size
  {
    if evs == [] then Ring(seq(size, _ => zero), 0, 0, 0)
    else Append(Appends(size, zero, evs[..|evs| - 1]), evs[|evs| - 1])
  }

  /** The same events numbered from zero. */
  function Numbered(evs: seq<Event>): (log: seq<Event>)
    ensures |log| == |evs|
    ensures forall k :: 0 <= k < |log| ==> log[k] == evs[k].(offset := k)
  {
    seq(|evs|, k requires 0 <= k < |evs| => evs[k].(offset := k))
  }

  /** After any appends to a buffer of any size, a replay from any offset returns the
      appended events from max(from, n - min(n, size)) on, each with its index as offset. */
  lemma {:induction false} RingIsLog(size: nat, zero: Event, evs: seq<Event>, from: int)
    requires size > 0
    ensures Agrees(Appends(size, zero, evs), Numbered(evs))
    ensures Replay(Appends(size, zero, evs), from) == Suffix(Numbered(evs), size, from)
    decreases |evs|
  {
    if evs != [] {
      var earlier := evs[..|evs| - 1];
      RingIsLog(size, zero, earlier, from);
      AppendAgrees(Appends(size, zero, earlier), Numbered(earlier), evs[|evs| - 1]);
      assert Numbered(evs) == Numbered(earlier) + [evs[|evs| - 1].(offset := |earlier|)];
    }
    ReplayAgrees(Appends(size, zero, evs), Numbered(evs), from);
  }

  /** The same without Suffix: the replay is the log from the largest of 0, the offset asked
      for and n - size on, and empty for an offset not reached yet. */
  lemma RingReplays(size: nat, zero: Event, evs: seq<Event>, from: int, k: nat)
    requires size > 0
    ensures from >= |evs| ==> Replay(Appends(size, zero, evs), from) == []
    ensures from <= k < |evs| <= k + size && (k == 0 || k == from || k + size == |evs|) ==>
              Replay(Appends(size, zero, evs), from) == Numbered(evs)[k..]
  {
    RingIsLog(size, zero, evs, from);
    hide Agrees, Appends, Replay;
  }
}
