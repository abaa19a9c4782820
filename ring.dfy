/** The bounded queue of include/core/RingBuffer.hpp, run by one thread: a
    power-of-two array of elements, a parallel array of per-slot sequence
    numbers, and two ever-growing positions. Slot `pos & mask` holds the
    element of position `pos`. With one thread every compare-and-swap
    succeeds at its first try, so each retry loop runs its body once. */
module Ring {

  // ---------------------------------------------------------------------
  // Masking a position

  function Pow2(k: nat): (p: nat)
    ensures p >= 1
  {
    if k == 0 then 1 else 2 * Pow2(k - 1)
  }

  /** Bitwise `a & b` on naturals, bit by bit from the lowest. */
  function And(a: nat, b: nat): nat {
    if a == 0 || b == 0 then 0
    else 2 * And(a / 2, b / 2) + (if a % 2 == 1 && b % 2 == 1 then 1 else 0)
  }

  /** The slot of a position in a buffer of `n` slots. */
  function Slot(pos: int, n: nat): (i: nat)
    requires n > 0
    ensures i < n
  {
    pos % n
  }

  lemma {:induction false} AndSelf(a: nat)
    ensures And(a, a) == a
  {
    if a != 0 {
      AndSelf(a / 2);
    }
  }

  /** Every power of two passes the constructor's test `n & (n - 1) == 0`. */
  lemma {:induction false} PowersPass(k: nat)
    ensures Pow2(k) > 0 && And(Pow2(k), Pow2(k) - 1) == 0
  {
    if k > 0 {
      PowersPass(k - 1);
      var h := Pow2(k - 1);
      assert Pow2(k) / 2 == h && Pow2(k) % 2 == 0;
      if h > 1 {
        assert (Pow2(k) - 1) / 2 == h - 1;
      }
    }
  }

  /** ... and nothing else does: a non-zero `n` with `n & (n - 1) == 0` is a
      power of two. */
  lemma {:induction false} OnlyPowersPass(n: nat) returns (k: nat)
    requires n > 0 && And(n, n - 1) == 0
    ensures Pow2(k) == n
  {
    if n == 1 {
      k := 0;
    } else if n % 2 == 1 {
      assert (n - 1) / 2 == n / 2 && (n - 1) % 2 == 0;
      AndSelf(n / 2);
      assert false;
    } else {
      assert (n - 1) / 2 == n / 2 - 1 && (n - 1) % 2 == 1;
      assert And(n, n - 1) == 2 * And(n / 2, n / 2 - 1);
      var j := OnlyPowersPass(n / 2);
      k := j + 1;
    }
  }

  /** For a power-of-two size `pos & (size - 1)` is `pos mod size`: the mask
      picks the slot. */
  lemma {:induction false} MaskIsSlot(pos: nat, k: nat)
    ensures And(pos, Pow2(k) - 1) == Slot(pos, Pow2(k))
  {
    if k == 0 {
      assert And(pos, 0) == 0;
    } else if pos > 0 {
      var h := Pow2(k - 1);
      assert Pow2(k) == 2 * h;
      MaskIsSlot(pos / 2, k - 1);
      MaskStep(pos, h, Pow2(k));
    }
  }

  /** One bit more: from the mask of `h` slots for the half position to
      the mask of `m = 2h` slots. */
  lemma MaskStep(pos: nat, h: nat, m: nat)
    requires pos > 0 && h > 0 && m == 2 * h && And(pos / 2, h - 1) == (pos / 2) % h
    ensures And(pos, m - 1) == pos % m
  {
    AndOdd(pos, h);
    HalfMod(pos, h);
  }

  /** Against the odd mask `2h - 1` the lowest bit passes through. */
  lemma AndOdd(a: nat, h: nat)
    requires a > 0 && h > 0
    ensures And(a, 2 * h - 1) == 2 * And(a / 2, h - 1) + a % 2
  {
    assert (2 * h - 1) / 2 == h - 1 && (2 * h - 1) % 2 == 1;
  }

  /** The remainder by `2h` from the remainder of the half by `h`. */
  lemma HalfMod(pos: nat, h: nat)
    requires h > 0
    ensures pos % (2 * h) == 2 * ((pos / 2) % h) + pos % 2
  {
    var q := (pos / 2) / h;
    var r := (pos / 2) % h;
    assert pos / 2 == h * q + r;
    assert pos == (2 * h) * q + (2 * r + pos % 2);
    ModUnique(pos, 2 * h, q, 2 * r + pos % 2);
  }

  /** A remainder is the only one in range. */
  lemma ModUnique(a: int, n: nat, q: int, r: int)
    requires n > 0 && a == n * q + r && 0 <= r < n
    ensures a % n == r
  {
    var d := a / n - q;
    assert n * d == r - a % n;
  }

  /** Two positions less than `n` apart never share a slot. */
  lemma SlotsDiffer(a: int, b: int, n: nat)
    requires n > 0 && a < b < a + n
    ensures Slot(a, n) != Slot(b, n)
  {
    var r := a % n;
    if r + (b - a) < n {
      ModUnique(b, n, a / n, r + (b - a));
    } else {
      ModUnique(b, n, a / n + 1, r + (b - a) - n);
    }
  }

  lemma SlotPeriodic(a: int, n: nat)
    requires n > 0
    ensures Slot(a + n, n) == Slot(a, n)
  {
    ModUnique(a + n, n, a / n + 1, a % n);
  }

  // ---------------------------------------------------------------------
  // The sequence-number bookkeeping, on values

  /** What one pass of the retry loop of `push` or `pop` decides: claim the
      position, report full/empty, or go round again. */
  datatype Outcome = Claimed | Refused | Retried

  /** The sequence array and the two positions. */
  datatype Slots = Slots(sequence: seq<int>, enqueuePos: nat, dequeuePos: nat)

  datatype Step = Step(outcome: Outcome, after: Slots)

  /** The constructor's state: slot `i` starts with sequence number `i`. */
  function InitialSlots(n: nat): (st: Slots)
    requires n > 0
    ensures |st.sequence| == n && st.enqueuePos == st.dequeuePos == 0
    ensures forall i :: 0 <= i < n ==> st.sequence[i] == i
  {
    Slots(seq(n, i => i), 0, 0)
  }

  /** One pass of `push`: compare the slot's sequence number with the
      position; equal claims the position and publishes `pos + 1`, smaller
      means full. */
  function PushAttempt(st: Slots): Step
    requires |st.sequence| > 0
  {
    var pos := st.enqueuePos;
    var i := Slot(pos, |st.sequence|);
    var diff := st.sequence[i] - pos;
    if diff == 0 then Step(Claimed, st.(sequence := st.sequence[i := pos + 1], enqueuePos := pos + 1))
    else if diff < 0 then Step(Refused, st)
    else Step(Retried, st)
  }

  /** One pass of `pop`: compare the slot's sequence number with the
      position plus one; equal claims it and frees the slot for the position
      one lap later (`pos + mask + 1`), smaller means empty. */
  function PopAttempt(st: Slots): Step
    requires |st.sequence| > 0
  {
    var pos := st.dequeuePos;
    var i := Slot(pos, |st.sequence|);
    var diff := st.sequence[i] - (pos + 1);
    if diff == 0 then Step(Claimed, st.(sequence := st.sequence[i := pos + |st.sequence|], dequeuePos := pos + 1))
    else if diff < 0 then Step(Refused, st)
    else Step(Retried, st)
  }

  /** Between the two positions lie at most `n` elements; each slot's
      sequence number is the next position to be written there when it is
      free, that position plus one when it is filled. */
  ghost predicate SlotsInvariant(st: Slots)
    requires |st.sequence| > 0
  {
    var n := |st.sequence|;
    st.dequeuePos <= st.enqueuePos <= st.dequeuePos + n
    && forall p :: st.dequeuePos <= p < st.dequeuePos + n ==>
         st.sequence[Slot(p, n)] == if p < st.enqueuePos then p + 1 else p
  }

  lemma InitialKeepsInvariant(n: nat)
    requires n > 0
    ensures SlotsInvariant(InitialSlots(n))
  {
  }

  /** With at least two slots a push never loops: it claims exactly when
      fewer than `n` elements are held, advancing `enqueuePos` by one and
      keeping the invariant, and otherwise changes nothing. */
  lemma PushAttemptKeeps(st: Slots)
    requires |st.sequence| >= 2 && SlotsInvariant(st)
    ensures var s := PushAttempt(st); var n := |st.sequence|;
      && s.outcome != Retried
      && (s.outcome == Claimed <==> st.enqueuePos < st.dequeuePos + n)
      && (s.outcome == Refused ==> s.after == st)
      && (s.outcome == Claimed ==> s.after.enqueuePos == st.enqueuePos + 1 && s.after.dequeuePos == st.dequeuePos)
      && |s.after.sequence| == n && SlotsInvariant(s.after)
  {
    var n := |st.sequence|;
    var deq, enq := st.dequeuePos, st.enqueuePos;
    if enq < deq + n {
      assert st.sequence[Slot(enq, n)] == enq;
      var s' := st.sequence[Slot(enq, n) := enq + 1];
      forall p | deq <= p < deq + n
        ensures s'[Slot(p, n)] == if p < enq + 1 then p + 1 else p
      {
        if p < enq {
          SlotsDiffer(p, enq, n);
        } else if p > enq {
          SlotsDiffer(enq, p, n);
        }
      }
    } else {
      SlotPeriodic(deq, n);
      assert st.sequence[Slot(deq, n)] == deq + 1;
    }
  }

  /** A pop never loops: it claims exactly when an element is held,
      advancing `dequeuePos` by one and keeping the invariant, and otherwise
      changes nothing. */
  lemma PopAttemptKeeps(st: Slots)
    requires |st.sequence| > 0 && SlotsInvariant(st)
    ensures var s := PopAttempt(st); var n := |st.sequence|;
      && s.outcome != Retried
      && (s.outcome == Claimed <==> st.dequeuePos < st.enqueuePos)
      && (s.outcome == Refused ==> s.after == st)
      && (s.outcome == Claimed ==> s.after.dequeuePos == st.dequeuePos + 1 && s.after.enqueuePos == st.enqueuePos)
      && |s.after.sequence| == n && SlotsInvariant(s.after)
  {
    var n := |st.sequence|;
    var deq, enq := st.dequeuePos, st.enqueuePos;
    assert st.sequence[Slot(deq, n)] == if deq < enq then deq + 1 else deq;
    if deq < enq {
      var s' := st.sequence[Slot(deq, n) := deq + n];
      forall p | deq + 1 <= p < deq + 1 + n
        ensures s'[Slot(p, n)] == if p < enq then p + 1 else p
      {
        if p == deq + n {
          SlotPeriodic(deq, n);
        } else {
          SlotsDiffer(deq, p, n);
        }
      }
    }
  }

  /** With one slot the constructor's test passes (`1 & 0 == 0`), yet a
      second push is claimed on a full buffer, overwriting the unread
      element, and the pop that follows finds a sequence number ahead of it
      and goes round for ever without changing anything. */
  lemma CapacityOneOverwrites()
    ensures And(1, 0) == 0
    ensures var s1 := PushAttempt(InitialSlots(1));
            var s2 := PushAttempt(s1.after);
            && s1.outcome == Claimed && s2.outcome == Claimed
            && s2.after.enqueuePos - s2.after.dequeuePos == 2
            && PopAttempt(s2.after) == Step(Retried, s2.after)
  {
    var s0 := InitialSlots(1);
    assert s0.sequence == [0];
    var s1 := PushAttempt(s0);
    assert s1.after.sequence == [1];
    var s2 := PushAttempt(s1.after);
    assert s2.after.sequence == [2];
  }

  // ---------------------------------------------------------------------
  // The buffer

  /** `count` consecutive positions from `from`, read through their slots. */
  ghost function Window<T>(s: seq<T>, from: nat, count: nat): seq<T>
    requires |s| > 0
  {
    seq(count, k requires 0 <= k < count => s[Slot(from + k, |s|)])
  }

  /** Writing the slot of the next position appends to the window. */
  lemma WindowPush<T>(s: seq<T>, from: nat, count: nat, x: T)
    requires count < |s|
    ensures Window(s[Slot(from + count, |s|) := x], from, count + 1) == Window(s, from, count) + [x]
  {
    var n := |s|;
    var s' := s[Slot(from + count, n) := x];
    forall k | 0 <= k < count
      ensures Window(s', from, count + 1)[k] == Window(s, from, count)[k]
    {
      SlotsDiffer(from + k, from + count, n);
    }
  }

  /** Moving the start one position on drops the window's head. */
  lemma WindowPop<T>(s: seq<T>, from: nat, count: nat)
    requires |s| > 0 && count > 0
    ensures Window(s, from + 1, count - 1) == Window(s, from, count)[1..]
  {
    forall k | 0 <= k < count - 1
      ensures Window(s, from + 1, count - 1)[k] == Window(s, from, count)[1..][k]
    {
      assert from + 1 + k == from + (k + 1);
    }
  }

  class RingBuffer<T(0)> {
    var buffer: array<T>
    var mask: nat
    var sequence: array<int>
    var enqueuePos: nat
    var dequeuePos: nat
    ghost var log2: nat

    ghost function View(): Slots
      reads this, sequence
    {
      Slots(sequence[..], enqueuePos, dequeuePos)
    }

    ghost predicate Valid()
      reads this, sequence
    {
      && buffer.Length == sequence.Length == mask + 1 == Pow2(log2)
      && mask >= 1
      && buffer as object != sequence as object
      && SlotsInvariant(View())
    }

    function Capacity(): nat
      reads this
    {
      buffer.Length
    }

    /** The queue: the elements of positions `dequeuePos` up to
        `enqueuePos`, oldest first. */
    ghost function Contents(): seq<T>
      reads this, buffer, sequence
      requires Valid()
    {
      Window(buffer[..], dequeuePos, enqueuePos - dequeuePos)
    }

    /** The constructor. Its test admits any non-zero power of two; this
        model also asks for at least two slots, which the one-slot case
        needs (CapacityOneOverwrites). */
    constructor (bufferSize: nat)
      requires bufferSize >= 2 && And(bufferSize, bufferSize - 1) == 0
      ensures Valid() && fresh(buffer) && fresh(sequence)
      ensures Capacity() == bufferSize && Contents() == []
      ensures View() == InitialSlots(bufferSize)
    {
      buffer := new T[bufferSize];
      mask := bufferSize - 1;
      var s := new int[bufferSize];
      for i := 0 to bufferSize
        invariant forall j :: 0 <= j < i ==> s[j] == j
      {
        s[i] := i;
      }
      sequence := s;
      enqueuePos := 0;
      dequeuePos := 0;
      ghost var k := OnlyPowersPass(bufferSize);
      log2 := k;
      new;
      assert sequence[..] == InitialSlots(bufferSize).sequence;
      InitialKeepsInvariant(bufferSize);
    }

    /** `push`: refused, changing nothing, exactly when `Capacity()`
        elements are held; otherwise the element joins the back of the
        queue. The bookkeeping is one `PushAttempt`. */
    method Push(data: T) returns (ok: bool)
      requires Valid()
      modifies this, buffer, sequence
      ensures Valid() && buffer == old(buffer) && sequence == old(sequence) && Capacity() == old(Capacity())
      ensures ok <==> |old(Contents())| < Capacity()
      ensures Contents() == if ok then old(Contents()) + [data] else old(Contents())
      ensures View() == PushAttempt(old(View())).after
      ensures !ok ==> unchanged(this, buffer, sequence)
    {
      ghost var st := View();
      PushAttemptKeeps(st);
      var pos := enqueuePos;
      MaskIsSlot(pos, log2);
      var slot := And(pos, mask);
      var diff := sequence[slot] - pos;
      if diff == 0 {
        enqueuePos := pos + 1;
      } else if diff < 0 {
        return false;
      } else {
        assert false;
      }
      WindowPush(buffer[..], dequeuePos, pos - dequeuePos, data);
      buffer[slot] := data;
      sequence[slot] := pos + 1;
      ok := true;
      assert sequence[..] == st.sequence[slot := pos + 1];
    }

    /** `pop`: refused, leaving `data` and the buffer as they were, exactly
        when the queue is empty; otherwise the oldest element comes out. The
        bookkeeping is one `PopAttempt`. */
    method Pop(data: T) returns (ok: bool, out: T)
      requires Valid()
      modifies this, sequence
      ensures Valid() && buffer == old(buffer) && sequence == old(sequence) && Capacity() == old(Capacity())
      ensures ok <==> old(Contents()) != []
      ensures ok ==> out == old(Contents())[0] && Contents() == old(Contents())[1..]
      ensures View() == PopAttempt(old(View())).after
      ensures !ok ==> out == data && unchanged(this, sequence)
    {
      out := data;
      ghost var st := View();
      PopAttemptKeeps(st);
      var pos := dequeuePos;
      MaskIsSlot(pos, log2);
      var slot := And(pos, mask);
      var diff := sequence[slot] - (pos + 1);
      if diff == 0 {
        dequeuePos := pos + 1;
      } else if diff < 0 {
        return false, out;
      } else {
        assert false;
      }
      WindowPop(buffer[..], pos, enqueuePos - pos);
      out := buffer[slot];
      sequence[slot] := pos + mask + 1;
      ok := true;
      assert sequence[..] == st.sequence[slot := pos + |st.sequence|];
    }
  }

  // ---------------------------------------------------------------------
  // Uses

  /** A capacity-4 buffer takes four elements and refuses a fifth. */
  method FullExample() returns (oks: seq<bool>)
    ensures oks == [true, true, true, true, false]
  {
    PowersPass(2);
    var b := new RingBuffer<int>(4);
    var a := b.Push(1);
    var c := b.Push(2);
    var d := b.Push(3);
    var e := b.Push(4);
    var f := b.Push(5);
    oks := [a, c, d, e, f];
  }

  /** Popping an empty buffer fails and leaves the value alone. */
  method EmptyExample() returns (ok: bool, value: int)
    ensures !ok && value == 0
  {
    PowersPass(2);
    var b := new RingBuffer<int>(4);
    ok, value := b.Pop(0);
  }

  /** Pushing a list that fits: every push is accepted and the list joins
      the back of the queue. */
  method Fill<T(0)>(b: RingBuffer<T>, xs: seq<T>)
    requires b.Valid() && |b.Contents()| + |xs| <= b.Capacity()
    modifies b, b.buffer, b.sequence
    ensures b.Valid() && b.Contents() == old(b.Contents()) + xs
    ensures b.buffer == old(b.buffer) && b.sequence == old(b.sequence) && b.Capacity() == old(b.Capacity())
  {
    ghost var start := b.Contents();
    for i := 0 to |xs|
      invariant b.Valid() && b.Contents() == start + xs[..i]
      invariant b.buffer == old(b.buffer) && b.sequence == old(b.sequence) && b.Capacity() == old(b.Capacity())
    {
      var ok := b.Push(xs[i]);
      assert ok;
      assert start + xs[..i + 1] == (start + xs[..i]) + [xs[i]];
    }
    assert xs[..|xs|] == xs;
  }

  /** Popping `count` held elements returns the oldest `count`, in order. */
  method Drain<T(0)>(b: RingBuffer<T>, count: nat) returns (popped: seq<T>)
    requires b.Valid() && count <= |b.Contents()|
    modifies b, b.sequence
    ensures b.Valid() && popped == old(b.Contents())[..count] && b.Contents() == old(b.Contents())[count..]
    ensures b.buffer == old(b.buffer) && b.sequence == old(b.sequence) && b.Capacity() == old(b.Capacity())
  {
    ghost var start := b.Contents();
    popped := [];
    var placeholder: T :| true;  // what `Pop` receives by reference; any value will do
    for i := 0 to count
      invariant b.Valid() && popped == start[..i] && b.Contents() == start[i..]
      invariant b.buffer == old(b.buffer) && b.sequence == old(b.sequence) && b.Capacity() == old(b.Capacity())
    {
      var ok, value := b.Pop(placeholder);
      assert start[..i + 1] == start[..i] + [value];
      popped := popped + [value];
    }
  }

  /** Elements come out in the order they went in. */
  method FifoExample(first: string, second: string, third: string) returns (out: seq<string>)
    ensures out == [first, second, third]
  {
    PowersPass(3);
    var b := new RingBuffer<string>(8);
    Fill(b, [first, second, third]);
    out := Drain(b, 3);
  }

  /** The elements one fill of a capacity-4 buffer pushes in a cycle. */
  function Run(cycle: int): seq<int> {
    [cycle * 100, cycle * 100 + 1, cycle * 100 + 2, cycle * 100 + 3]
  }

  /** What the first `cycles` fill-and-drain cycles pop. */
  function Expected(cycles: nat): seq<int> {
    if cycles == 0 then [] else Expected(cycles - 1) + Run(cycles - 1)
  }

  /** Three fill-and-drain cycles of a capacity-4 buffer go round the array
      three times, each element coming out as `cycle * 100 + i`. */
  method WrapAroundExample() returns (popped: seq<int>)
    ensures popped == [0, 1, 2, 3, 100, 101, 102, 103, 200, 201, 202, 203]
  {
    PowersPass(2);
    var b := new RingBuffer<int>(4);
    popped := [];
    for cycle := 0 to 3
      invariant b.Valid() && b.Capacity() == 4 && b.Contents() == []
      invariant fresh(b.buffer) && fresh(b.sequence)
      invariant popped == Expected(cycle)
    {
      Fill(b, Run(cycle));
      var out := Drain(b, 4);
      popped := popped + out;
    }
  }
}
