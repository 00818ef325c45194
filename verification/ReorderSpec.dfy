/**
 * What one flush of the reorder buffer means (section 2.2 of RFC 2890), over a
 * set of waiting packets: no array, no tombstones, no order of arrival.
 *
 * A position is the last number of the stream that was written or given up;
 * -1 stands for "nothing yet", which the client stores as UINT32_MAX.
 */
module ReorderSpec {
  import opened Bytes

  /** A buffered packet; `id` counts arrivals, `stamp` is its arrival time in microseconds. */
  datatype Packet = Packet(id: nat, number: nat, stamp: int, payload: Bytes)

  ghost function Elems(s: seq<Packet>): set<Packet> {
    set p | p in s
  }

  ghost function Numbers(w: set<Packet>): set<int> {
    set p | p in w :: p.number
  }

  /** No two packets have the same number. */
  ghost predicate Distinct(w: set<Packet>) {
    forall p, q :: p in w && q in w && p.number == q.number ==> p == q
  }

  ghost predicate Ascending(s: seq<Packet>) {
    forall i, j :: 0 <= i < j < |s| ==> s[i].number < s[j].number
  }

  ghost predicate Expired(p: Packet, now: int, timeout: int) {
    now - p.stamp >= timeout
  }

  ghost predicate Young(w: set<Packet>, now: int, timeout: int) {
    forall p :: p in w ==> !Expired(p, now, timeout)
  }

  /** The largest of `floor` and the members of `s`. */
  ghost function Highest(s: set<int>, floor: int): (m: int)
    ensures m == floor || m in s
    ensures floor <= m
    ensures forall n :: n in s ==> n <= m
  {
    if exists n :: n in s && n > floor then
      var n :| n in s && n > floor;
      assert forall k :: k in s ==> k == n || k in s - {n};
      Highest(s - {n}, n)
    else floor
  }

  /** The end of the run of consecutive members of `s` that starts after `t`. */
  ghost function RunEnd(s: set<int>, t: int): (end: int)
    ensures t <= end
    ensures forall n :: t < n <= end ==> n in s
    ensures end + 1 !in s
  {
    if t + 1 in s then RunEnd(s - {t + 1}, t + 1) else t
  }

  /** The larger of the position and the highest timed-out waiting number. */
  ghost function Target(w: set<Packet>, pos: int, now: int, timeout: int): int {
    Highest(Numbers(set p | p in w && Expired(p, now, timeout)), pos)
  }

  ghost function End(w: set<Packet>, pos: int, now: int, timeout: int): int {
    RunEnd(Numbers(w), Target(w, pos, now, timeout))
  }

  /** The numbers a flush from `pos` to `end` gives up. */
  ghost function GivenUp(w: set<Packet>, pos: int, end: int): set<int> {
    set n: int | pos < n <= end && n !in Numbers(w)
  }

  /** What is still ahead of `end`; before number 0 nothing is. */
  ghost function Ahead(w: set<Packet>, end: int): set<Packet> {
    if end < 0 then {} else set p | p in w && p.number > end
  }

  lemma AheadWithout(w: set<Packet>, end: int, p: Packet)
    requires p !in Ahead(w, end)
    ensures Ahead(w - {p}, end) == Ahead(w, end)
  {
  }

  datatype Flush = Flush(out: seq<Packet>, end: int, rest: set<Packet>, dropped: set<Packet>)

  /**
   * One flush of `w`: in ascending order, one copy of every waiting number after
   * `pos` up to the end of the run after the target is written; what is ahead of
   * that end keeps waiting; everything else is dropped.
   */
  ghost predicate IsFlush(w: set<Packet>, pos: int, now: int, timeout: int, f: Flush) {
    && f.end == End(w, pos, now, timeout)
    && Ascending(f.out)
    && Elems(f.out) <= w
    && (forall n :: n in Numbers(Elems(f.out)) <==> n in Numbers(w) && pos < n <= f.end)
    && f.rest == Ahead(w, f.end)
    && f.dropped == w - Elems(f.out) - f.rest
  }

  /**
   * Enough for the flush loop to end, whatever the order of arrival: a timed-out
   * packet lies ahead of the position and is the only waiting copy of its number.
   */
  ghost predicate Sound(w: set<Packet>, pos: int, now: int, timeout: int) {
    forall p :: p in w && Expired(p, now, timeout) ==>
      p.number > pos && forall q :: q in w && q.number == p.number ==> q == p
  }

  /** Some timed-out packet waits for the number `n`. */
  ghost predicate SomeExpiredAbove(w: set<Packet>, now: int, timeout: int, n: int) {
    exists p :: p in w && Expired(p, now, timeout) && p.number > n
  }

  /** A number with these properties is the end of the flush. */
  lemma EndIs(w: set<Packet>, pos: int, now: int, timeout: int, end: int)
    requires pos <= end && end + 1 !in Numbers(w)
    requires forall p :: p in w && Expired(p, now, timeout) ==> p.number <= end
    requires forall n :: pos < n <= end ==> n in Numbers(w) || SomeExpiredAbove(w, now, timeout, n)
    ensures End(w, pos, now, timeout) == end
  {
    var target, e := Target(w, pos, now, timeout), End(w, pos, now, timeout);
    if target != pos {
      var p :| p in w && Expired(p, now, timeout) && p.number == target;
    }
    forall p | p in w && Expired(p, now, timeout)
      ensures p.number <= target
    {
      assert p.number in Numbers(set q | q in w && Expired(q, now, timeout));
    }
    assert e + 1 !in Numbers(w);
  }

  lemma AscendingNext(out: seq<Packet>, p: Packet)
    requires Ascending(out) && forall q :: q in Elems(out) ==> q.number < p.number
    ensures Ascending(out + [p])
  {
    assert forall i :: 0 <= i < |out| ==> out[i] in Elems(out);
  }

  lemma NumbersUnion(a: set<Packet>, b: set<Packet>)
    ensures Numbers(a + b) == Numbers(a) + Numbers(b)
  {
  }

  /** One copy of each number of `w` after `pos` up to `end`, in order. */
  ghost function OutTo(w: set<Packet>, pos: int, end: int): seq<Packet>
    decreases end - pos
  {
    if end <= pos then []
    else OutTo(w, pos, end - 1) + if end in Numbers(w) then [CopyOf(w, end)] else []
  }

  ghost function CopyOf(w: set<Packet>, n: int): Packet
    requires n in Numbers(w)
  {
    var p :| p in w && p.number == n;
    p
  }

  lemma {:induction false} OutToIs(w: set<Packet>, pos: int, end: int)
    ensures var out := OutTo(w, pos, end);
      && Ascending(out) && Elems(out) <= w
      && (forall p :: p in Elems(out) ==> pos < p.number <= end)
      && (forall n :: n in Numbers(Elems(out)) <==> n in Numbers(w) && pos < n <= end)
    decreases end - pos
  {
    if end > pos {
      OutToIs(w, pos, end - 1);
      if end in Numbers(w) {
        var before, p := OutTo(w, pos, end - 1), CopyOf(w, end);
        AscendingNext(before, p);
        assert Elems(before + [p]) == Elems(before) + {p};
        NumbersUnion(Elems(before), {p});
        assert Numbers({p}) == {end};
      }
    }
  }

  /** A flush of `w`; the only one if the numbers are distinct. */
  ghost function FlushOf(w: set<Packet>, pos: int, now: int, timeout: int): (f: Flush)
    ensures IsFlush(w, pos, now, timeout, f)
  {
    var end := End(w, pos, now, timeout);
    var out := OutTo(w, pos, end);
    OutToIs(w, pos, end);
    Flush(out, end, Ahead(w, end), w - Elems(out) - Ahead(w, end))
  }

  // ---------------------------------------------------------------- what a flush guarantees

  /** With distinct numbers a flush is determined by its input. */
  lemma FlushUnique(w: set<Packet>, pos: int, now: int, timeout: int, f: Flush, g: Flush)
    requires Distinct(w)
    requires IsFlush(w, pos, now, timeout, f) && IsFlush(w, pos, now, timeout, g)
    ensures f == g
    ensures Elems(f.out) == set p | p in w && pos < p.number <= f.end
  {
    var range := set p | p in w && pos < p.number <= f.end;
    WritesTheRange(w, pos, now, timeout, f);
    WritesTheRange(w, pos, now, timeout, g);
    AscendingUnique(f.out, g.out);
  }

  lemma WritesTheRange(w: set<Packet>, pos: int, now: int, timeout: int, f: Flush)
    requires Distinct(w)
    requires IsFlush(w, pos, now, timeout, f)
    ensures Elems(f.out) == set p | p in w && pos < p.number <= f.end
  {
    forall p | p in w && pos < p.number <= f.end
      ensures p in Elems(f.out)
    {
      assert p.number in Numbers(w);
      var q :| q in Elems(f.out) && q.number == p.number;
      assert q in w;
    }
    forall p | p in Elems(f.out)
      ensures p in w && pos < p.number <= f.end
    {
      assert p.number in Numbers(Elems(f.out));
    }
  }

  /** An ascending sequence is determined by its elements. */
  lemma {:induction false} AscendingUnique(a: seq<Packet>, b: seq<Packet>)
    requires Ascending(a) && Ascending(b) && Elems(a) == Elems(b)
    ensures a == b
  {
    assert forall i :: 0 <= i < |a| ==> a[i] in Elems(a);
    assert forall i :: 0 <= i < |b| ==> b[i] in Elems(b);
    assert a != [] ==> a[0] in Elems(a);
    assert b != [] ==> b[0] in Elems(b);
    if a != [] && b != [] {
      LastIsAbove(a, b);
      LastIsAbove(b, a);
      ElemsOfPrefix(a);
      ElemsOfPrefix(b);
      AscendingUnique(a[..|a| - 1], b[..|b| - 1]);
    }
  }

  lemma LastIsAbove(a: seq<Packet>, b: seq<Packet>)
    requires a != [] && b != [] && Ascending(a) && Elems(b) <= Elems(a)
    ensures b[|b| - 1] == a[|a| - 1] || b[|b| - 1].number < a[|a| - 1].number
  {
    assert b[|b| - 1] in Elems(b);
  }

  lemma ElemsOfPrefix(a: seq<Packet>)
    requires a != [] && Ascending(a)
    ensures Elems(a[..|a| - 1]) == Elems(a) - {a[|a| - 1]}
  {
    var last := |a| - 1;
    forall p | p in Elems(a) - {a[last]}
      ensures p in Elems(a[..last])
    {
      var i :| 0 <= i < |a| && a[i] == p;
      assert a[..last][i] == p;
    }
  }

  /**
   * A number is given up only when no buffered packet has it and some waiting
   * packet with a higher number has timed out.
   */
  lemma GivenUpReason(w: set<Packet>, pos: int, now: int, timeout: int, n: int)
    requires n in GivenUp(w, pos, End(w, pos, now, timeout))
    ensures n !in Numbers(w)
    ensures exists p :: p in w && Expired(p, now, timeout) && p.number > n
  {
    var target := Target(w, pos, now, timeout);
    assert n <= target;
    var p :| p in w && Expired(p, now, timeout) && p.number == target;
    assert p.number in Numbers(w);
  }

  /** A flush splits its input into what it writes, keeps and drops. */
  lemma FlushSplits(w: set<Packet>, pos: int, now: int, timeout: int, f: Flush)
    requires IsFlush(w, pos, now, timeout, f)
    ensures w == f.rest + Elems(f.out) + f.dropped
    ensures f.rest !! Elems(f.out) !! f.dropped
  {
    assert f.rest <= w;
    forall p | p in Elems(f.out)
      ensures p !in f.rest
    {
      assert p.number in Numbers(Elems(f.out));
    }
  }

  /** A packet ahead of the position is dropped only when another copy of its number is written. */
  lemma FlushKeeps(w: set<Packet>, pos: int, now: int, timeout: int, f: Flush, p: Packet)
    requires IsFlush(w, pos, now, timeout, f)
    requires p in w && p.number > pos && f.end >= 0
    ensures p in f.rest || p in Elems(f.out) || (p in f.dropped && p.number in Numbers(Elems(f.out)))
  {
    assert p.number in Numbers(w);
  }

  /** No packet that keeps waiting has timed out. */
  lemma RestIsYoung(w: set<Packet>, pos: int, now: int, timeout: int, f: Flush)
    requires IsFlush(w, pos, now, timeout, f)
    ensures Young(f.rest, now, timeout)
  {
    var expired := set q | q in w && Expired(q, now, timeout);
    forall p | p in f.rest
      ensures p !in expired
    {
      assert p in expired ==> p.number in Numbers(expired);
    }
  }

  /** The end of a flush is the position it started from or the number of a waiting packet. */
  lemma EndIsNumber(w: set<Packet>, pos: int, now: int, timeout: int)
    ensures End(w, pos, now, timeout) == pos || End(w, pos, now, timeout) in Numbers(w)
  {
    var target := Target(w, pos, now, timeout);
    if End(w, pos, now, timeout) == target && target != pos {
      var p :| p in w && Expired(p, now, timeout) && p.number == target;
    }
  }
}
