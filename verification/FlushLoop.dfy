/**
 * The flush loop on the array itself: the scan in index order that is repeated
 * until it flushes nothing, and the jump back that gives up one number at a time.
 * When it ends, which of two copies it writes, and what it amounts to.
 */
module FlushLoop {
  import opened Bytes
  import opened Wrappers
  import opened Timeval
  import opened ReorderSpec
  import opened BufferArray

  /** The array, the position, and the indices of the entries written so far. */
  datatype Loop = Loop(entries: seq<Entry>, pos: int, order: seq<nat>)

  function Write(l: Loop, i: nat): Loop
    requires i < |l.entries|
  {
    Loop(l.entries[i := l.entries[i].(size := 0)], l.pos + 1, l.order + [i])
  }

  /** Lines 110-121 from index `i` on: the size of an entry is not looked at. */
  function Scan(l: Loop, i: nat): (r: Loop)
    requires i <= |l.entries|
    ensures |r.entries| == |l.entries| && l.pos <= r.pos
    ensures r.pos == l.pos ==> r == l
    ensures r.pos > l.pos ==> r.pos <= UINT32_MAX
    decreases |l.entries| - i
  {
    if i == |l.entries| then l
    else if l.entries[i].sequence == l.pos + 1 then Scan(Write(l, i), i + 1)
    else Scan(l, i + 1)
  }

  /** Lines 107-122: scan until a scan flushes nothing. */
  function FlushAll(l: Loop): (r: Loop)
    ensures |r.entries| == |l.entries| && l.pos <= r.pos
    decreases UINT32_MAX - l.pos
  {
    var r := Scan(l, 0);
    if r.pos == l.pos then l else FlushAll(r)
  }

  predicate TimedOut(e: Entry, now: int, timeout: int) {
    e.size > 0 && now - Micros(e.timestamp) >= timeout
  }

  predicate AnyTimedOut(entries: seq<Entry>, now: int, timeout: int) {
    exists i :: 0 <= i < |entries| && TimedOut(entries[i], now, timeout)
  }

  /**
   * Lines 105-134: where the loop ends, or None if the counter reaches UINT32_MAX
   * first, its initial value, and so leaves the pass.
   */
  function Outcome(l: Loop, now: int, timeout: int): Option<Loop>
    decreases UINT32_MAX - l.pos
  {
    var r := FlushAll(l);
    if !AnyTimedOut(r.entries, now, timeout) then Some(r)
    else if r.pos + 1 >= UINT32_MAX then None
    else Outcome(r.(pos := r.pos + 1), now, timeout)
  }

  // ---------------------------------------------------------------- which copy is written

  predicate Carries(e: Entry, number: int) {
    e.size > 0 && e.sequence == number
  }

  /** The first live entry from index `c` on that carries `number`, or the length of the array. */
  function FirstFrom(entries: seq<Entry>, c: nat, number: int): (i: nat)
    requires c <= |entries|
    ensures c <= i <= |entries|
    ensures i < |entries| ==> Carries(entries[i], number)
    decreases |entries| - c
  {
    if c == |entries| || Carries(entries[c], number) then c else FirstFrom(entries, c + 1, number)
  }

  /** The first copy of `number` for a scan that stands at index `c`, in this scan or in the next. */
  function FirstAround(entries: seq<Entry>, c: nat, number: int): (i: nat)
    requires c <= |entries|
    ensures i <= |entries|
    ensures i < |entries| ==> Carries(entries[i], number)
  {
    var i := FirstFrom(entries, c, number);
    if i < |entries| then i else FirstFrom(entries, 0, number)
  }

  /**
   * The entry that is written for `number` by a loop that starts at `pos`: the first
   * copy behind the entry written for the number before, else the first of all.
   */
  function Chosen(entries: seq<Entry>, pos: int, number: int): (i: nat)
    ensures i <= |entries|
    ensures i < |entries| ==> Carries(entries[i], number) && number > pos
    decreases number - pos
  {
    if number <= pos then |entries|
    else
      var before := Chosen(entries, pos, number - 1);
      FirstAround(entries, if before < |entries| then before + 1 else 0, number)
  }

  /** No entry is written for `number`. */
  predicate Missing(entries: seq<Entry>, pos: int, number: int) {
    Chosen(entries, pos, number) == |entries|
  }

  /** The indices written, in order, by the time the loop has come from `pos` to `end`. */
  function Order(entries: seq<Entry>, pos: int, end: int): seq<nat>
    decreases end - pos
  {
    if end <= pos then []
    else
      var i := Chosen(entries, pos, end);
      Order(entries, pos, end - 1) + if i < |entries| then [i] else []
  }

  /** `after` is the array with the entries of `order` turned into tombstones. */
  ghost predicate Marked(entries: seq<Entry>, order: seq<nat>, after: seq<Entry>) {
    && |after| == |entries|
    && forall i: nat :: i < |entries| ==> after[i] == if i in order then entries[i].(size := 0) else entries[i]
  }

  /** The loop as a closed form: everything follows from where it started and how far it has come. */
  ghost predicate OnCourse(entries: seq<Entry>, pos: int, l: Loop) {
    pos <= l.pos && l.order == Order(entries, pos, l.pos) && Marked(entries, l.order, l.entries)
  }

  lemma {:induction false} FirstIsFirst(entries: seq<Entry>, c: nat, number: int, k: nat)
    requires c <= k < |entries| && Carries(entries[k], number)
    ensures FirstFrom(entries, c, number) <= k
    decreases k - c
  {
    if !Carries(entries[c], number) {
      FirstIsFirst(entries, c + 1, number, k);
    }
  }

  /** A number that waits ahead of `pos` is written. */
  lemma WaitingIsChosen(entries: seq<Entry>, pos: int, number: int, k: nat)
    requires pos < number && k < |entries| && Carries(entries[k], number)
    ensures !Missing(entries, pos, number)
  {
    FirstIsFirst(entries, 0, number, k);
  }

  /** By position `end` entry `i` has been written. */
  predicate Written(entries: seq<Entry>, pos: int, end: int, i: nat) {
    && i < |entries| && entries[i].size > 0 && pos < entries[i].sequence <= end
    && Chosen(entries, pos, entries[i].sequence) == i
  }

  lemma {:induction false} OrderIs(entries: seq<Entry>, pos: int, end: int, i: nat)
    ensures i in Order(entries, pos, end) <==> Written(entries, pos, end, i)
    decreases end - pos
  {
    if end > pos {
      OrderIs(entries, pos, end - 1, i);
    }
  }

  ghost predicate AscendingIn(entries: seq<Entry>, order: seq<nat>) {
    && (forall k :: 0 <= k < |order| ==> order[k] < |entries|)
    && (forall j, k :: 0 <= j < k < |order| ==> entries[order[j]].sequence < entries[order[k]].sequence)
  }

  lemma {:induction false} OrderAscends(entries: seq<Entry>, pos: int, end: int)
    ensures AscendingIn(entries, Order(entries, pos, end))
    decreases end - pos
  {
    if end > pos {
      var before, i := Order(entries, pos, end - 1), Chosen(entries, pos, end);
      OrderAscends(entries, pos, end - 1);
      forall k | 0 <= k < |before|
        ensures entries[before[k]].sequence < end
      {
        OrderIs(entries, pos, end - 1, before[k]);
      }
      hide Chosen, Written;
    }
  }

  // ---------------------------------------------------------------- the loop stays on course

  /** The scan stands at index `i`, and the copy of the next number it will meet is the chosen one. */
  ghost predicate Scanning(entries: seq<Entry>, pos: int, l: Loop, i: nat) {
    && OnCourse(entries, pos, l) && i <= |entries|
    && FirstAround(entries, i, l.pos + 1) == Chosen(entries, pos, l.pos + 1)
  }

  lemma StartsScanning(entries: seq<Entry>, pos: int)
    ensures Scanning(entries, pos, Loop(entries, pos, []), 0)
  {
  }

  /** An entry of the running loop carries the next number exactly if the original one is live and does. */
  lemma MatchIsLive(entries: seq<Entry>, pos: int, l: Loop, i: nat)
    requires OnCourse(entries, pos, l) && Below(entries, pos) && i < |entries|
    ensures l.entries[i].sequence == l.pos + 1 <==> Carries(entries[i], l.pos + 1)
    ensures l.entries[i].sequence == l.pos + 1 ==> l.entries[i] == entries[i]
  {
    OrderIs(entries, pos, l.pos, i);
    hide Chosen, Order;
  }

  /** The copy that the scan meets is the chosen one, and the scan goes on behind it. */
  lemma MetIsChosen(entries: seq<Entry>, pos: int, number: int, i: nat)
    requires pos < number && i < |entries| && Carries(entries[i], number)
    requires FirstAround(entries, i, number) == Chosen(entries, pos, number)
    ensures Chosen(entries, pos, number) == i
    ensures Chosen(entries, pos, number + 1) == FirstAround(entries, i + 1, number + 1)
    ensures Order(entries, pos, number) == Order(entries, pos, number - 1) + [i]
  {
    assert FirstFrom(entries, i, number) == i;
  }

  /** Writing the entry that the scan meets stays on course. */
  lemma WriteKeeps(entries: seq<Entry>, pos: int, l: Loop, i: nat)
    requires Scanning(entries, pos, l, i) && Below(entries, pos)
    requires i < |entries| && l.entries[i].sequence == l.pos + 1
    ensures Chosen(entries, pos, l.pos + 1) == i
    ensures Scanning(entries, pos, Write(l, i), i + 1)
  {
    hide Chosen, FirstAround, FirstFrom, Order, Below, Carries, Marked, Missing;
    MatchIsLive(entries, pos, l, i);
    MetIsChosen(entries, pos, l.pos + 1, i);
    MarkOne(entries, l.order, l.entries, i);
  }

  lemma MarkOne(entries: seq<Entry>, order: seq<nat>, after: seq<Entry>, i: nat)
    requires Marked(entries, order, after) && i < |entries|
    ensures Marked(entries, order + [i], after[i := entries[i].(size := 0)])
  {
  }

  lemma PassKeeps(entries: seq<Entry>, pos: int, l: Loop, i: nat)
    requires Scanning(entries, pos, l, i) && Below(entries, pos)
    requires i < |entries| && l.entries[i].sequence != l.pos + 1
    ensures Scanning(entries, pos, l, i + 1) && !Carries(entries[i], l.pos + 1)
  {
    MatchIsLive(entries, pos, l, i);
  }

  /** A scan stays on course; if it writes nothing, no entry behind index `i` carries the next number. */
  lemma {:induction false} ScanKeeps(entries: seq<Entry>, pos: int, l: Loop, i: nat)
    requires Scanning(entries, pos, l, i) && Below(entries, pos)
    ensures var r := Scan(l, i);
      && Scanning(entries, pos, r, 0)
      && NoneMissing(entries, pos, l.pos, r.pos)
      && (r == l ==> forall k :: i <= k < |entries| ==> !Carries(entries[k], l.pos + 1))
    decreases |entries| - i
  {
    hide Chosen, FirstAround, Order;
    if i == |entries| {
      AroundTheEnd(entries, l.pos + 1);
    } else if l.entries[i].sequence == l.pos + 1 {
      WriteKeeps(entries, pos, l, i);
      ScanKeeps(entries, pos, Write(l, i), i + 1);
    } else {
      PassKeeps(entries, pos, l, i);
      ScanKeeps(entries, pos, l, i + 1);
    }
  }

  lemma AroundTheEnd(entries: seq<Entry>, number: int)
    ensures FirstAround(entries, |entries|, number) == FirstAround(entries, 0, number)
  {
  }

  /** The loop stands where no entry carries the next number. */
  ghost predicate Stuck(entries: seq<Entry>, pos: int, l: Loop) {
    OnCourse(entries, pos, l) && Missing(entries, pos, l.pos + 1)
  }

  lemma NotCarried(entries: seq<Entry>, pos: int, number: int)
    requires forall k :: 0 <= k < |entries| ==> !Carries(entries[k], number)
    ensures Missing(entries, pos, number)
  {
  }

  /** All the numbers from `a` to `b` have been written. */
  ghost predicate NoneMissing(entries: seq<Entry>, pos: int, a: int, b: int) {
    forall n :: a < n <= b ==> !Missing(entries, pos, n)
  }

  lemma NoneMissingTwice(entries: seq<Entry>, pos: int, a: int, b: int, c: int)
    requires NoneMissing(entries, pos, a, b) && NoneMissing(entries, pos, b, c)
    ensures NoneMissing(entries, pos, a, c)
  {
  }

  /** A whole scan: it stays on course, and if it writes nothing, no copy of the next number is left. */
  lemma WholeScanKeeps(entries: seq<Entry>, pos: int, l: Loop)
    requires Scanning(entries, pos, l, 0) && Below(entries, pos)
    ensures var s := Scan(l, 0);
      && Scanning(entries, pos, s, 0)
      && NoneMissing(entries, pos, l.pos, s.pos)
      && (s.pos == l.pos ==> Stuck(entries, pos, l))
  {
    ScanKeeps(entries, pos, l, 0);
    hide Scan, NoneMissing, Missing, Chosen, FirstAround, Order, Marked, Below, Carries;
    if Scan(l, 0) == l {
      NotCarried(entries, pos, l.pos + 1);
    }
  }

  /** The repeated scan stays on course and ends with no copy of the next number left. */
  lemma {:induction false} FlushAllKeeps(entries: seq<Entry>, pos: int, l: Loop)
    requires Scanning(entries, pos, l, 0) && Below(entries, pos)
    ensures var r := FlushAll(l);
      && Stuck(entries, pos, r)
      && NoneMissing(entries, pos, l.pos, r.pos)
    decreases UINT32_MAX - l.pos
  {
    WholeScanKeeps(entries, pos, l);
    var s := Scan(l, 0);
    hide Scan, Scanning, Stuck, OnCourse, NoneMissing, Missing, Chosen, FirstAround, Order, Marked, Below, Carries;
    if s.pos != l.pos {
      FlushAllKeeps(entries, pos, s);
      NoneMissingTwice(entries, pos, l.pos, s.pos, FlushAll(s).pos);
    }
  }

  /** Giving up a number that no entry carries stays on course, and the scan starts over. */
  lemma GiveUpKeeps(entries: seq<Entry>, pos: int, l: Loop)
    requires Stuck(entries, pos, l)
    ensures Scanning(entries, pos, l.(pos := l.pos + 1), 0)
  {
    hide FirstAround, FirstFrom, Marked;
    assert l.order + [] == l.order;
  }

  // ---------------------------------------------------------------- when the loop ends

  /** Each timed-out entry lies ahead of the position and is the copy that is written for its number. */
  predicate ArraySound(entries: seq<Entry>, pos: int, now: int, timeout: int) {
    forall i :: 0 <= i < |entries| && TimedOut(entries[i], now, timeout) ==>
      entries[i].sequence > pos && Chosen(entries, pos, entries[i].sequence) == i
  }

  /** The numbers from `pos` to `end` that no entry carries lie below that of a timed-out entry. */
  ghost predicate Justified(entries: seq<Entry>, pos: int, end: int, now: int, timeout: int) {
    forall n :: pos < n <= end && Missing(entries, pos, n) ==> TimedOutAbove(entries, now, timeout, n)
  }

  ghost predicate TimedOutAbove(entries: seq<Entry>, now: int, timeout: int, n: int) {
    exists i :: 0 <= i < |entries| && TimedOut(entries[i], now, timeout) && entries[i].sequence > n
  }

  /** The loop has come to its end: nothing more to write, nothing timed out, nothing given up without reason. */
  ghost predicate Finished(entries: seq<Entry>, pos: int, now: int, timeout: int, l: Loop) {
    && Stuck(entries, pos, l) && Justified(entries, pos, l.pos, now, timeout)
    && !AnyTimedOut(l.entries, now, timeout)
  }

  /** In a sound array, an entry that is still live and timed out lies beyond the number given up for it. */
  lemma TimedOutIsAhead(entries: seq<Entry>, pos: int, now: int, timeout: int, l: Loop, i: nat)
    requires ArraySound(entries, pos, now, timeout) && Stuck(entries, pos, l)
    requires i < |entries| && TimedOut(l.entries[i], now, timeout)
    ensures TimedOut(entries[i], now, timeout) && entries[i].sequence > l.pos + 1
  {
    OrderIs(entries, pos, l.pos, i);
    hide Order, FirstAround;
  }

  /** An unsound entry is never written, so it stays timed out. */
  lemma UnsoundStays(entries: seq<Entry>, pos: int, now: int, timeout: int, l: Loop, i: nat)
    requires OnCourse(entries, pos, l)
    requires i < |entries| && TimedOut(entries[i], now, timeout)
    requires entries[i].sequence > pos ==> Chosen(entries, pos, entries[i].sequence) != i
    ensures AnyTimedOut(l.entries, now, timeout)
  {
    OrderIs(entries, pos, l.pos, i);
    hide Chosen, Order;
    assert l.entries[i] == entries[i];
  }

  lemma StillJustified(entries: seq<Entry>, pos: int, end: int, end': int, now: int, timeout: int)
    requires Justified(entries, pos, end, now, timeout) && NoneMissing(entries, pos, end, end')
    ensures Justified(entries, pos, end', now, timeout)
  {
    hide Missing, TimedOutAbove;
  }

  lemma GiveUpIsJustified(entries: seq<Entry>, pos: int, end: int, now: int, timeout: int, i: nat)
    requires Justified(entries, pos, end, now, timeout)
    requires i < |entries| && TimedOut(entries[i], now, timeout) && entries[i].sequence > end + 1
    ensures Justified(entries, pos, end + 1, now, timeout)
  {
    hide Missing;
    assert TimedOutAbove(entries, now, timeout, end + 1);
  }

  /** One round on a sound array: it finishes, or gives up a number for a timed-out entry beyond it. */
  lemma SoundRound(entries: seq<Entry>, pos: int, now: int, timeout: int, l: Loop)
    requires Below(entries, pos) && ArraySound(entries, pos, now, timeout)
    requires forall i :: 0 <= i < |entries| ==> entries[i].sequence < UINT32_MAX
    requires Scanning(entries, pos, l, 0) && Justified(entries, pos, l.pos, now, timeout)
    ensures var r := FlushAll(l);
      if AnyTimedOut(r.entries, now, timeout) then
        var r' := r.(pos := r.pos + 1);
        r'.pos < UINT32_MAX && Scanning(entries, pos, r', 0) && Justified(entries, pos, r'.pos, now, timeout)
      else Finished(entries, pos, now, timeout, r)
  {
    hide FlushAll, NoneMissing, Justified, Scanning, ArraySound, Below, Stuck;
    FlushAllKeeps(entries, pos, l);
    var r := FlushAll(l);
    StillJustified(entries, pos, l.pos, r.pos, now, timeout);
    if AnyTimedOut(r.entries, now, timeout) {
      StuckLength(entries, pos, r);
      var i :| 0 <= i < |r.entries| && TimedOut(r.entries[i], now, timeout);
      TimedOutIsAhead(entries, pos, now, timeout, r, i);
      GiveUpKeeps(entries, pos, r);
      GiveUpIsJustified(entries, pos, r.pos, now, timeout, i);
    }
  }

  lemma StuckLength(entries: seq<Entry>, pos: int, l: Loop)
    requires Stuck(entries, pos, l)
    ensures |l.entries| == |entries| && OnCourse(entries, pos, l)
  {
  }

  lemma {:induction false} SoundFinishes(entries: seq<Entry>, pos: int, now: int, timeout: int, l: Loop)
    requires Below(entries, pos) && ArraySound(entries, pos, now, timeout)
    requires forall i :: 0 <= i < |entries| ==> entries[i].sequence < UINT32_MAX
    requires Scanning(entries, pos, l, 0) && Justified(entries, pos, l.pos, now, timeout)
    ensures Outcome(l, now, timeout).Some?
    ensures Finished(entries, pos, now, timeout, Outcome(l, now, timeout).value)
    decreases UINT32_MAX - l.pos
  {
    hide Scanning, Finished, Justified, ArraySound, FlushAll, AnyTimedOut, Below;
    SoundRound(entries, pos, now, timeout, l);
    var r := FlushAll(l);
    if AnyTimedOut(r.entries, now, timeout) {
      SoundFinishes(entries, pos, now, timeout, r.(pos := r.pos + 1));
    }
  }

  lemma {:induction false} UnsoundRunsOn(entries: seq<Entry>, pos: int, now: int, timeout: int, l: Loop, i: nat)
    requires Below(entries, pos) && Scanning(entries, pos, l, 0)
    requires i < |entries| && TimedOut(entries[i], now, timeout)
    requires entries[i].sequence > pos ==> Chosen(entries, pos, entries[i].sequence) != i
    ensures Outcome(l, now, timeout) == None
    decreases UINT32_MAX - l.pos
  {
    hide Scanning, FlushAll, AnyTimedOut, Below, Chosen, NoneMissing, Stuck;
    FlushAllKeeps(entries, pos, l);
    var r := FlushAll(l);
    StuckLength(entries, pos, r);
    UnsoundStays(entries, pos, now, timeout, r, i);
    hide OnCourse;
    if r.pos + 1 < UINT32_MAX {
      GiveUpKeeps(entries, pos, r);
      UnsoundRunsOn(entries, pos, now, timeout, r.(pos := r.pos + 1), i);
    }
  }

  /**
   * The loop ends inside the pass exactly if each timed-out entry lies ahead of the
   * position and is the copy that is written for its number. Otherwise it gives up
   * number after number until the counter is back at its initial value.
   */
  lemma LoopEndsIffSound(entries: seq<Entry>, pos: int, now: int, timeout: int)
    requires Below(entries, pos)
    requires forall i :: 0 <= i < |entries| ==> entries[i].sequence < UINT32_MAX
    ensures Outcome(Loop(entries, pos, []), now, timeout).Some? <==> ArraySound(entries, pos, now, timeout)
    ensures ArraySound(entries, pos, now, timeout) ==>
      Finished(entries, pos, now, timeout, Outcome(Loop(entries, pos, []), now, timeout).value)
  {
    StartsScanning(entries, pos);
    hide Scanning, Outcome, Chosen, Finished;
    if ArraySound(entries, pos, now, timeout) {
      SoundFinishes(entries, pos, now, timeout, Loop(entries, pos, []));
    } else {
      var i :| 0 <= i < |entries| && TimedOut(entries[i], now, timeout)
            && (entries[i].sequence <= pos || Chosen(entries, pos, entries[i].sequence) != i);
      UnsoundRunsOn(entries, pos, now, timeout, Loop(entries, pos, []), i);
    }
  }

  /** Without a second copy of a timed-out number, and none at or below the position, the array is sound. */
  lemma SoundIsEnough(entries: seq<Entry>, memory: Memory, mallocs: nat, pos: int, now: int, timeout: int)
    requires Layout(entries, memory, mallocs) && Sound(WaitingIn(entries, memory), pos, now, timeout)
    ensures ArraySound(entries, pos, now, timeout)
  {
    hide Layout, WaitingIn, Chosen;
    forall i | 0 <= i < |entries| && TimedOut(entries[i], now, timeout)
      ensures entries[i].sequence > pos && Chosen(entries, pos, entries[i].sequence) == i
    {
      LiveIsWaiting(entries, memory, mallocs, i);
      WaitingIsChosen(entries, pos, entries[i].sequence, i);
      var c := Chosen(entries, pos, entries[i].sequence);
      LiveIsWaiting(entries, memory, mallocs, c);
      PacketsDiffer(entries, memory, mallocs, i, c);
    }
  }

  lemma PacketsDiffer(entries: seq<Entry>, memory: Memory, mallocs: nat, i: nat, j: nat)
    requires Layout(entries, memory, mallocs) && i < |entries| && j < |entries|
    ensures entries[i].packet == entries[j].packet ==> i == j
  {
  }

  // ---------------------------------------------------------------- two arrays with a second copy

  /** The copy that is written for `number`, once the one for the number before is known. */
  lemma ChosenNext(entries: seq<Entry>, pos: int, number: int, c: nat, i: nat)
    requires pos < number && c <= i < |entries| && Carries(entries[i], number)
    requires forall k :: c <= k < i ==> !Carries(entries[k], number)
    requires c == if Missing(entries, pos, number - 1) then 0 else Chosen(entries, pos, number - 1) + 1
    ensures Chosen(entries, pos, number) == i
  {
    FirstIsFirst(entries, c, number, i);
  }

  /** A timed-out entry with a second copy of its number behind the one written for the number before. */
  lemma SecondCopyIsUnsound(entries: seq<Entry>, pos: int, now: int, timeout: int, i: nat, j: nat)
    requires i < |entries| && TimedOut(entries[i], now, timeout) && pos < entries[i].sequence
    requires i <= Chosen(entries, pos, entries[i].sequence - 1) < j < |entries|
    requires Carries(entries[j], entries[i].sequence)
    ensures !ArraySound(entries, pos, now, timeout)
  {
    var number := entries[i].sequence;
    FirstIsFirst(entries, Chosen(entries, pos, number - 1) + 1, number, j);
    assert Chosen(entries, pos, number) != i;
  }

  /** An entry of one octet, buffered at the given microsecond as the given allocation. */
  function Sample(number: uint32, micros: nat, packet: nat): Entry
    requires micros < 1_000_000
  {
    Entry(number, Timeval(0, micros), packet, 1)
  }

  function SampleMemory(n: nat): Memory {
    if n == 0 then map[] else SampleMemory(n - 1)[n - 1 := [0]]
  }

  lemma {:induction false} SampleMemoryIs(n: nat)
    ensures forall h: nat :: h in SampleMemory(n) <==> h < n
    ensures forall h: nat :: h in SampleMemory(n) ==> SampleMemory(n)[h] == [0]
  {
    if n > 0 {
      SampleMemoryIs(n - 1);
    }
  }

  lemma ThreeFit()
    ensures Layout([Sample(5, 0, 0), Sample(4, 100, 1), Sample(5, 200, 2)], SampleMemory(3), 3)
  {
    hide SampleMemory;
    SampleMemoryIs(3);
  }

  lemma TwoFit()
    ensures Layout([Sample(5, 0, 0), Sample(5, 200, 1)], SampleMemory(2), 2)
  {
    hide SampleMemory;
    SampleMemoryIs(2);
  }

  /**
   * Packets 5, 4 and again 5 are waiting, the first is timed out, and 3 is missing.
   * The scan writes 4 and then the copy of 5 behind it; the timed-out copy stays,
   * and the loop gives up every number there is.
   */
  lemma SecondCopyRunsOn()
    ensures var entries := [Sample(5, 0, 0), Sample(4, 100, 1), Sample(5, 200, 2)];
      && Layout(entries, SampleMemory(3), 3) && Below(entries, 2)
      && !ArraySound(entries, 2, 250, 250)
      && Outcome(Loop(entries, 2, []), 250, 250) == None
  {
    ThreeFit();
    hide Chosen, Missing, ArraySound, Outcome, Finished, SampleMemory, Layout, FirstFrom;
    var entries := [Sample(5, 0, 0), Sample(4, 100, 1), Sample(5, 200, 2)];
    NotCarried(entries, 2, 3);
    ChosenNext(entries, 2, 4, 0, 1);
    SecondCopyIsUnsound(entries, 2, 250, 250, 0, 2);
    LoopEndsIffSound(entries, 2, 250, 250);
  }

  /**
   * With the two copies of 5 alone the loop ends: it writes the timed-out one. So a
   * second waiting copy does no harm by itself, even when the first is timed out.
   */
  lemma SecondCopyEnds()
    ensures var entries := [Sample(5, 0, 0), Sample(5, 200, 1)];
      && Layout(entries, SampleMemory(2), 2) && Below(entries, 3)
      && !Sound(WaitingIn(entries, SampleMemory(2)), 3, 250, 250)
      && ArraySound(entries, 3, 250, 250)
      && Outcome(Loop(entries, 3, []), 250, 250).Some?
  {
    var entries := [Sample(5, 0, 0), Sample(5, 200, 1)];
    TwoFit();
    hide Chosen, Missing, Outcome, Finished, WaitingIn, Sound, SampleMemory, Layout, FirstFrom;
    TwoCopies(entries, SampleMemory(2), 250, 250);
    NotCarried(entries, 3, 4);
    ChosenNext(entries, 3, 5, 0, 0);
    LoopEndsIffSound(entries, 3, 250, 250);
  }

  lemma TwoCopies(entries: seq<Entry>, memory: Memory, now: int, timeout: int)
    requires Layout(entries, memory, 2) && |entries| == 2
    requires Carries(entries[0], 5) && Carries(entries[1], 5) && TimedOut(entries[0], now, timeout)
    ensures !Sound(WaitingIn(entries, memory), 3, now, timeout)
  {
    LiveIsWaiting(entries, memory, 2, 0);
    LiveIsWaiting(entries, memory, 2, 1);
    hide WaitingIn;
    assert Expired(PacketOf(entries[0], memory), now, timeout);
  }

  // ---------------------------------------------------------------- what the loop amounts to

  ghost predicate AllIn(entries: seq<Entry>, memory: Memory, order: seq<nat>) {
    forall k :: 0 <= k < |order| ==> order[k] < |entries| && entries[order[k]].packet in memory
  }

  /** The packets of the entries in `order`. */
  ghost function PacketsAt(entries: seq<Entry>, memory: Memory, order: seq<nat>): (out: seq<Packet>)
    requires AllIn(entries, memory, order)
    ensures |out| == |order|
    ensures forall k :: 0 <= k < |out| ==> out[k] == PacketOf(entries[order[k]], memory)
  {
    if order == [] then []
    else PacketsAt(entries, memory, order[..|order| - 1]) + [PacketOf(entries[order[|order| - 1]], memory)]
  }

  /** A number ahead of the position waits exactly if an entry is written for it. */
  lemma NumberWaits(entries: seq<Entry>, memory: Memory, mallocs: nat, pos: int, n: int)
    requires Layout(entries, memory, mallocs) && n > pos
    ensures n in Numbers(WaitingIn(entries, memory)) <==> !Missing(entries, pos, n)
  {
    var w := WaitingIn(entries, memory);
    if n in Numbers(w) {
      var p :| p in w && p.number == n;
      var k :| 0 <= k < |entries| && entries[k].size > 0 && entries[k].packet in memory
            && PacketOf(entries[k], memory) == p;
      WaitingIsChosen(entries, pos, n, k);
    }
    if !Missing(entries, pos, n) {
      LiveIsWaiting(entries, memory, mallocs, Chosen(entries, pos, n));
    }
  }

  lemma OrderIsReadable(entries: seq<Entry>, memory: Memory, mallocs: nat, pos: int, end: int)
    requires Layout(entries, memory, mallocs)
    ensures AllIn(entries, memory, Order(entries, pos, end))
  {
    var order := Order(entries, pos, end);
    forall k | 0 <= k < |order|
      ensures order[k] < |entries| && entries[order[k]].packet in memory
    {
      OrderIs(entries, pos, end, order[k]);
    }
  }

  /** Each packet written is the chosen copy of its number, and it was waiting. */
  lemma WrittenIsChosen(entries: seq<Entry>, memory: Memory, mallocs: nat, pos: int, end: int, p: Packet)
    requires Layout(entries, memory, mallocs) && AllIn(entries, memory, Order(entries, pos, end))
    requires p in PacketsAt(entries, memory, Order(entries, pos, end))
    ensures pos < p.number <= end && p in WaitingIn(entries, memory) && p.number in Numbers(WaitingIn(entries, memory))
    ensures !Missing(entries, pos, p.number)
    ensures p == PacketOf(entries[Chosen(entries, pos, p.number)], memory)
  {
    var order := Order(entries, pos, end);
    var k :| 0 <= k < |order| && PacketsAt(entries, memory, order)[k] == p;
    OrderIs(entries, pos, end, order[k]);
    hide Chosen, Order;
    LiveIsWaiting(entries, memory, mallocs, order[k]);
  }

  lemma ChosenIsWritten(entries: seq<Entry>, memory: Memory, mallocs: nat, pos: int, end: int, n: int)
    requires Layout(entries, memory, mallocs) && AllIn(entries, memory, Order(entries, pos, end))
    requires pos < n <= end && !Missing(entries, pos, n)
    ensures n in Numbers(Elems(PacketsAt(entries, memory, Order(entries, pos, end))))
  {
    var order, c := Order(entries, pos, end), Chosen(entries, pos, n);
    OrderIs(entries, pos, end, c);
    hide Chosen, Order;
    var out := PacketsAt(entries, memory, order);
    var k :| 0 <= k < |order| && order[k] == c;
    assert out[k] in Elems(out);
  }

  lemma OutAscends(entries: seq<Entry>, memory: Memory, pos: int, end: int)
    requires AllIn(entries, memory, Order(entries, pos, end))
    ensures Ascending(PacketsAt(entries, memory, Order(entries, pos, end)))
  {
    OrderAscends(entries, pos, end);
    hide Order;
  }

  lemma NoneExpiredAhead(entries: seq<Entry>, memory: Memory, pos: int, now: int, timeout: int, l: Loop, p: Packet)
    requires Finished(entries, pos, now, timeout, l)
    requires p in WaitingIn(entries, memory) && Expired(p, now, timeout)
    ensures p.number <= l.pos
  {
    var i: nat :| i < |entries| && entries[i].size > 0 && entries[i].packet in memory
               && PacketOf(entries[i], memory) == p;
    OrderIs(entries, pos, l.pos, i);
    hide Order, Chosen, Missing;
    assert !TimedOut(l.entries[i], now, timeout);
  }

  lemma FinishedAtEnd(entries: seq<Entry>, memory: Memory, mallocs: nat, pos: int, now: int, timeout: int, l: Loop)
    requires Layout(entries, memory, mallocs) && Finished(entries, pos, now, timeout, l)
    ensures l.pos == End(WaitingIn(entries, memory), pos, now, timeout)
  {
    hide End, Missing, Order, WaitingIn, AnyTimedOut, Marked;
    var w := WaitingIn(entries, memory);
    NumberWaits(entries, memory, mallocs, pos, l.pos + 1);
    forall p | p in w && Expired(p, now, timeout)
      ensures p.number <= l.pos
    {
      NoneExpiredAhead(entries, memory, pos, now, timeout, l, p);
    }
    forall n | pos < n <= l.pos
      ensures n in Numbers(w) || SomeExpiredAbove(w, now, timeout, n)
    {
      NumberWaits(entries, memory, mallocs, pos, n);
      if Missing(entries, pos, n) {
        var i :| 0 <= i < |entries| && TimedOut(entries[i], now, timeout) && entries[i].sequence > n;
        LiveIsWaiting(entries, memory, mallocs, i);
        assert Expired(PacketOf(entries[i], memory), now, timeout);
      }
    }
    EndIs(w, pos, now, timeout, l.pos);
  }

  /** When the loop has finished, exactly the specified flush has happened. */
  lemma ExitIsFlush(entries: seq<Entry>, memory: Memory, mallocs: nat, pos: int, now: int, timeout: int, l: Loop)
    requires Layout(entries, memory, mallocs) && Finished(entries, pos, now, timeout, l)
    ensures AllIn(entries, memory, l.order)
    ensures var w, out := WaitingIn(entries, memory), PacketsAt(entries, memory, l.order);
      IsFlush(w, pos, now, timeout, Flush(out, l.pos, Ahead(w, l.pos), w - Elems(out) - Ahead(w, l.pos)))
  {
    OrderIsReadable(entries, memory, mallocs, pos, l.pos);
    FinishedAtEnd(entries, memory, mallocs, pos, now, timeout, l);
    OutAscends(entries, memory, pos, l.pos);
    hide Finished, Layout, End, Order, WaitingIn, Chosen, PacketsAt, Ascending, Ahead, Missing, AllIn;
    assert l.order == Order(entries, pos, l.pos) by { FinishedOrder(entries, pos, now, timeout, l); }
    var w, out := WaitingIn(entries, memory), PacketsAt(entries, memory, l.order);
    forall p | p in Elems(out)
      ensures p in w
    {
      WrittenIsChosen(entries, memory, mallocs, pos, l.pos, p);
    }
    forall n | n in Numbers(Elems(out))
      ensures n in Numbers(w) && pos < n <= l.pos
    {
      var p :| p in Elems(out) && p.number == n;
      WrittenIsChosen(entries, memory, mallocs, pos, l.pos, p);
    }
    forall n | n in Numbers(w) && pos < n <= l.pos
      ensures n in Numbers(Elems(out))
    {
      NumberWaits(entries, memory, mallocs, pos, n);
      ChosenIsWritten(entries, memory, mallocs, pos, l.pos, n);
    }
  }

  lemma FinishedOrder(entries: seq<Entry>, pos: int, now: int, timeout: int, l: Loop)
    requires Finished(entries, pos, now, timeout, l)
    ensures l.order == Order(entries, pos, l.pos) && pos <= l.pos && Marked(entries, l.order, l.entries)
  {
  }

  /** One more entry written: its block holds what it held when the loop started. */
  lemma WrittenNext(entries0: seq<Entry>, memory0: Memory, entries: seq<Entry>, memory: Memory,
                    order: seq<nat>, i: nat)
    requires Tombstoned(entries0, entries) && Remains(memory, memory0) && AllIn(entries0, memory0, order)
    requires i < |entries| && entries[i].packet in memory
    ensures AllIn(entries0, memory0, order + [i])
    ensures Payloads(PacketsAt(entries0, memory0, order + [i]))
         == Payloads(PacketsAt(entries0, memory0, order)) + [memory[entries[i].packet]]
  {
    assert (order + [i])[..|order|] == order;
  }

  /** What is left waiting in the middle of the loop: the packets that were not written. */
  lemma LeftWaiting(entries0: seq<Entry>, memory0: Memory, mallocs: nat, entries: seq<Entry>, memory: Memory,
                    order: seq<nat>)
    requires Layout(entries0, memory0, mallocs) && Layout(entries, memory, mallocs)
    requires Marked(entries0, order, entries) && Remains(memory, memory0) && AllIn(entries0, memory0, order)
    ensures WaitingIn(entries, memory)
         == WaitingIn(entries0, memory0) - Elems(PacketsAt(entries0, memory0, order))
  {
    var w0, out := WaitingIn(entries0, memory0), PacketsAt(entries0, memory0, order);
    hide PacketsAt;
    forall p | p in WaitingIn(entries, memory)
      ensures p in w0 && p !in out
    {
      var i: nat :| i < |entries| && entries[i].size > 0 && entries[i].packet in memory
                 && PacketOf(entries[i], memory) == p;
      assert entries[i] == entries0[i] && i !in order;
      forall k | 0 <= k < |out|
        ensures out[k] != p
      {
        assert order[k] in order;
        PacketsDiffer(entries0, memory0, mallocs, i, order[k]);
      }
    }
    forall p | p in w0 && p !in out
      ensures p in WaitingIn(entries, memory)
    {
      var i: nat :| i < |entries0| && entries0[i].size > 0 && entries0[i].packet in memory0
                 && PacketOf(entries0[i], memory0) == p;
      forall k | 0 <= k < |order|
        ensures order[k] != i
      {
        assert out[k] != p;
      }
      assert entries[i] == entries0[i];
      LiveIsWaiting(entries, memory, mallocs, i);
    }
  }

  lemma WhatIsLeft(entries0: seq<Entry>, memory0: Memory, mallocs: nat, pos: int, now: int, timeout: int, l: Loop,
                   memory: Memory)
    requires Layout(entries0, memory0, mallocs) && Layout(l.entries, memory, mallocs)
    requires Finished(entries0, pos, now, timeout, l)
    requires Remains(memory, memory0) && AllIn(entries0, memory0, l.order)
    ensures var w0, w, out := WaitingIn(entries0, memory0), WaitingIn(l.entries, memory),
                              PacketsAt(entries0, memory0, l.order);
      && Ahead(w, l.pos) == Ahead(w0, l.pos)
      && w - Ahead(w, l.pos) == w0 - Elems(out) - Ahead(w0, l.pos)
  {
    FinishedOrder(entries0, pos, now, timeout, l);
    LeftWaiting(entries0, memory0, mallocs, l.entries, memory, l.order);
    hide Finished, Layout, WaitingIn, Remains, Marked, Order, Chosen, PacketsAt, Missing;
    forall p | p in PacketsAt(entries0, memory0, l.order)
      ensures p.number <= l.pos
    {
      WrittenIsChosen(entries0, memory0, mallocs, pos, l.pos, p);
    }
  }
}
