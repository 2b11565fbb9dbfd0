/**
 * The merge performed by `readFromInputs`, described on values: which reader
 * `nextReader` selects, and the sequence of lines the loop hands to
 * `formatLine`. The properties of the merge (every line exactly once and in
 * order, time order, runs of equal instants, the sentinel default) are
 * lemmas about `MergeLog`.
 */
module Merge {
  import opened GoLib
  import opened LineReader
  import opened Output
  import opened Wrappers
  import Extract

  /** Lines the readers' scanners have not returned yet, over all readers. */
  function Unread(srcs: seq<SrcState>): nat
    decreases |srcs|
  {
    if srcs == [] then 0 else |srcs[0].unread| + Unread(srcs[1..])
  }

  /** Readers whose scanner is still live. */
  function CountActive(srcs: seq<SrcState>): (n: nat)
    ensures n <= |srcs|
    decreases |srcs|
  {
    if srcs == [] then 0 else (if srcs[0].active then 1 else 0) + CountActive(srcs[1..])
  }

  /** What one pass of the merge loop consumes: an unread line or a unit of
      `activeReaders`. */
  function Measure(srcs: seq<SrcState>, active: int): int
  {
    Unread(srcs) + active
  }

  predicate AllWF(srcs: seq<SrcState>)
  {
    forall k | 0 <= k < |srcs| :: WellFormed(srcs[k])
  }

  lemma {:induction false} UnreadUpdate(srcs: seq<SrcState>, i: nat, s: SrcState)
    requires i < |srcs|
    ensures Unread(srcs[i := s]) == Unread(srcs) - |srcs[i].unread| + |s.unread|
    decreases i
  {
    if i == 0 {
      assert srcs[i := s][1..] == srcs[1..];
    } else {
      assert srcs[i := s][1..] == srcs[1..][i - 1 := s];
      UnreadUpdate(srcs[1..], i - 1, s);
    }
  }

  lemma {:induction false} CountUpdate(srcs: seq<SrcState>, i: nat, s: SrcState)
    requires i < |srcs|
    ensures CountActive(srcs[i := s])
              == CountActive(srcs) - (if srcs[i].active then 1 else 0) + (if s.active then 1 else 0)
    decreases i
  {
    if i == 0 {
      assert srcs[i := s][1..] == srcs[1..];
    } else {
      assert srcs[i := s][1..] == srcs[1..][i - 1 := s];
      CountUpdate(srcs[1..], i - 1, s);
    }
  }

  /** A live reader is counted; with none counted, every reader is done. */
  lemma {:induction false} CountPositive(srcs: seq<SrcState>)
    ensures CountActive(srcs) == 0 <==> forall k | 0 <= k < |srcs| :: !srcs[k].active
    decreases |srcs|
  {
    if srcs != [] {
      CountPositive(srcs[1..]);
      assert forall k | 1 <= k < |srcs| :: srcs[k] == srcs[1..][k - 1];
    }
  }

  // ---------------------------------------------------------------------
  // nextReader
  // ---------------------------------------------------------------------

  /** The running pair of `nextReader`: the selected index and `minTime`. */
  datatype Choice = Choice(index: nat, min: Instant)

  /** The running pair after the loop has looked at readers 0 .. k-1. */
  function PickScan(srcs: seq<SrcState>, k: nat): (c: Choice)
    requires k <= |srcs|
    ensures k == 0 ==> c.index == 0
    ensures k > 0 ==> c.index < k
    decreases k
  {
    if k == 0 then Choice(0, FarFuture)
    else
      var c := PickScan(srcs, k - 1);
      var s := srcs[k - 1];
      if s.active && (PeekTime(s) == ZeroTime || PeekTime(s) < c.min) then Choice(k - 1, PeekTime(s)) else c
  }

  /** `nextReader`. */
  function Pick(srcs: seq<SrcState>): (i: nat)
    ensures |srcs| > 0 ==> i < |srcs|
  {
    PickScan(srcs, |srcs|).index
  }

  /** Some reader among the first k is live and shows the zero time. */
  predicate HasZero(srcs: seq<SrcState>, k: nat)
    requires k <= |srcs|
  {
    exists j | 0 <= j < k :: srcs[j].active && PeekTime(srcs[j]) == ZeroTime
  }

  /** Some reader among the first k is live and shows a time that can beat
      the sentinel. */
  predicate HasTimed(srcs: seq<SrcState>, k: nat)
    requires k <= |srcs|
  {
    exists j | 0 <= j < k :: srcs[j].active && (PeekTime(srcs[j]) == ZeroTime || PeekTime(srcs[j]) < FarFuture)
  }

  /** Every live reader shows an instant at or after the zero time. */
  predicate HeadsNonNegative(srcs: seq<SrcState>)
  {
    forall j | 0 <= j < |srcs| && srcs[j].active :: ZeroTime <= PeekTime(srcs[j])
  }

  /** The running pair selects a live reader as soon as one can beat the
      sentinel, and otherwise stays at its default. */
  lemma {:induction false} PickScanLive(srcs: seq<SrcState>, k: nat)
    requires k <= |srcs|
    ensures HasTimed(srcs, k) ==>
              srcs[PickScan(srcs, k).index].active
              && PickScan(srcs, k).min == PeekTime(srcs[PickScan(srcs, k).index])
              && PickScan(srcs, k).min < FarFuture
    ensures !HasTimed(srcs, k) ==> PickScan(srcs, k) == Choice(0, FarFuture)
    decreases k
  {
    if k > 0 {
      PickScanLive(srcs, k - 1);
      var s := srcs[k - 1];
      if HasTimed(srcs, k - 1) {
        var j :| 0 <= j < k - 1 && srcs[j].active && (PeekTime(srcs[j]) == ZeroTime || PeekTime(srcs[j]) < FarFuture);
        assert srcs[j].active && (PeekTime(srcs[j]) == ZeroTime || PeekTime(srcs[j]) < FarFuture);
      } else if s.active && (PeekTime(s) == ZeroTime || PeekTime(s) < FarFuture) {
        assert srcs[k - 1].active && (PeekTime(srcs[k - 1]) == ZeroTime || PeekTime(srcs[k - 1]) < FarFuture);
      }
    }
  }

  /** With no live reader before the zero time, a zero-time reader among
      the first k wins the running pair, and the last live one does. */
  lemma {:induction false} PickScanZero(srcs: seq<SrcState>, k: nat)
    requires k <= |srcs| && HeadsNonNegative(srcs)
    ensures HasZero(srcs, k) ==>
              var c := PickScan(srcs, k);
              c.min == ZeroTime && srcs[c.index].active && PeekTime(srcs[c.index]) == ZeroTime
              && forall j | c.index < j < k && srcs[j].active :: PeekTime(srcs[j]) != ZeroTime
    decreases k
  {
    if k > 0 {
      PickScanZero(srcs, k - 1);
      var s := srcs[k - 1];
      if HasZero(srcs, k - 1) {
        var j :| 0 <= j < k - 1 && srcs[j].active && PeekTime(srcs[j]) == ZeroTime;
        assert srcs[j].active && PeekTime(srcs[j]) == ZeroTime;
      } else if s.active && PeekTime(s) == ZeroTime {
        assert HasZero(srcs, k);
      } else {
        assert !HasZero(srcs, k);
      }
    }
  }

  /** Without a zero-time reader among the first k, the running minimum is
      the earliest live instant, first-registered on ties, whatever the
      instants are. */
  lemma {:induction false} PickScanEarliest(srcs: seq<SrcState>, k: nat)
    requires k <= |srcs|
    ensures !HasZero(srcs, k) ==>
              var c := PickScan(srcs, k);
              (forall j | 0 <= j < k && srcs[j].active :: c.min <= PeekTime(srcs[j]))
              && (forall j | 0 <= j < c.index && srcs[j].active :: c.min < PeekTime(srcs[j]))
    decreases k
  {
    PickScanLive(srcs, k);
    if k > 0 && !HasZero(srcs, k) {
      assert !HasZero(srcs, k - 1);
      PickScanEarliest(srcs, k - 1);
      PickScanLive(srcs, k - 1);
    }
  }

  /** `nextReader`'s choice: when every live reader shows an instant at or
      after the zero time, the last live zero-time reader if any; without a
      zero-time reader, the live reader with the earliest instant, the
      first-registered one on ties; and index 0, live or not, when no live
      reader shows an instant before the sentinel. */
  lemma PickRule(srcs: seq<SrcState>)
    requires |srcs| > 0
    ensures HeadsNonNegative(srcs) && HasZero(srcs, |srcs|) ==>
              srcs[Pick(srcs)].active && PeekTime(srcs[Pick(srcs)]) == ZeroTime
              && forall j | Pick(srcs) < j < |srcs| && srcs[j].active :: PeekTime(srcs[j]) != ZeroTime
    ensures !HasZero(srcs, |srcs|) && HasTimed(srcs, |srcs|) ==>
              srcs[Pick(srcs)].active
              && (forall j | 0 <= j < |srcs| && srcs[j].active :: PeekTime(srcs[Pick(srcs)]) <= PeekTime(srcs[j]))
              && (forall j | 0 <= j < Pick(srcs) && srcs[j].active :: PeekTime(srcs[Pick(srcs)]) < PeekTime(srcs[j]))
    ensures !HasTimed(srcs, |srcs|) ==> Pick(srcs) == 0
  {
    PickScanLive(srcs, |srcs|);
    PickScanEarliest(srcs, |srcs|);
    if HeadsNonNegative(srcs) {
      PickScanZero(srcs, |srcs|);
    }
  }

  /** The selected reader shows an instant no later than any live reader's,
      unless a zero-time reader is live beside one before the zero time. */
  lemma PickMinimal(srcs: seq<SrcState>)
    requires |srcs| > 0 && HasTimed(srcs, |srcs|)
    requires HasZero(srcs, |srcs|) ==> HeadsNonNegative(srcs)
    ensures srcs[Pick(srcs)].active
    ensures forall j | 0 <= j < |srcs| && srcs[j].active :: PeekTime(srcs[Pick(srcs)]) <= PeekTime(srcs[j])
  {
    PickRule(srcs);
  }

  /** The zero-time rule needs instants at or after the zero time: an
      unbound reader followed by a bound one showing an instant before it
      loses to that reader. */
  lemma NegativeBeatsZero()
    ensures var srcs := [SrcState(None, ZeroTime, "", [], true),
                         SrcState(Some(Extract.Extractor("", "")), -5, "", [], true)];
            HasZero(srcs, 2) && !HeadsNonNegative(srcs) && Pick(srcs) == 1
  {
    var srcs := [SrcState(None, ZeroTime, "", [], true),
                 SrcState(Some(Extract.Extractor("", "")), -5, "", [], true)];
    assert srcs[0].active && PeekTime(srcs[0]) == ZeroTime;
    assert srcs[1].active && PeekTime(srcs[1]) < ZeroTime;
    assert PickScan(srcs, 1) == Choice(0, ZeroTime);
    assert PickScan(srcs, 2) == Choice(1, -5);
  }

  // ---------------------------------------------------------------------
  // readFromInputs
  // ---------------------------------------------------------------------

  /** The lines `readFromInputs` hands to `formatLine`, starting from the
      readers' states and `activeReaders`: while `activeReaders` is
      positive, select a reader and run it. */
  function MergeLog(srcs: seq<SrcState>, active: int, lib: Lib): (log: seq<Emission>)
    requires Sound(lib) && AllWF(srcs) && active <= |srcs|
    ensures forall k | 0 <= k < |log| :: log[k].reader < |srcs|
    ensures active <= 0 <==> log == []
    decreases Measure(srcs, active), 1
  {
    if active <= 0 then [] else RunFrom(srcs, active, Pick(srcs), lib)
  }

  /** The inner loop on reader i: emit its line, scan, drop `activeReaders`
      if the reader has ended, and keep going while the new line carries the
      same instant. */
  function RunFrom(srcs: seq<SrcState>, active: int, i: nat, lib: Lib): (log: seq<Emission>)
    requires Sound(lib) && AllWF(srcs) && 1 <= active <= |srcs| && i < |srcs|
    ensures log != [] && log[0] == Emission(i, PeekTime(srcs[i]), srcs[i].text)
    ensures forall k | 0 <= k < |log| :: log[k].reader < |srcs|
    decreases Measure(srcs, active), 0
  {
    var when := PeekTime(srcs[i]);
    var r := Step(srcs[i], lib);
    var srcs' := srcs[i := r.next];
    var active' := if r.next.active then active else active - 1;
    UnreadUpdate(srcs, i, r.next);
    [Emission(i, when, srcs[i].text)]
    + if r.more && PeekTime(r.next) == when then RunFrom(srcs', active', i, lib) else MergeLog(srcs', active', lib)
  }

  /** One pass of the inner loop: the line emitted first, and what is
      left to emit after the `scan` — the rest of the run if the new line
      carries the same instant, the rest of the merge otherwise. */
  lemma RunFromStep(srcs: seq<SrcState>, active: int, i: nat, lib: Lib)
    requires Sound(lib) && AllWF(srcs) && 1 <= active <= |srcs| && i < |srcs|
    ensures var r := Step(srcs[i], lib);
            var srcs' := srcs[i := r.next];
            var active' := if r.next.active then active else active - 1;
            var e := Emission(i, PeekTime(srcs[i]), srcs[i].text);
            && AllWF(srcs') && 0 <= active' <= |srcs'|
            && Measure(srcs', active') < Measure(srcs, active)
            && (r.more && PeekTime(r.next) == PeekTime(srcs[i]) ==>
                  1 <= active' && RunFrom(srcs, active, i, lib) == [e] + RunFrom(srcs', active', i, lib))
            && (!(r.more && PeekTime(r.next) == PeekTime(srcs[i])) ==>
                  RunFrom(srcs, active, i, lib) == [e] + MergeLog(srcs', active', lib))
  {
    UnreadUpdate(srcs, i, Step(srcs[i], lib).next);
  }

  /** The lines of one reader in a merged log, in order. */
  function Project(log: seq<Emission>, j: nat): (es: seq<Entry>)
    ensures |es| <= |log|
    decreases |log|
  {
    if log == [] then []
    else (if log[0].reader == j then [Entry(log[0].time, log[0].text)] else []) + Project(log[1..], j)
  }

  lemma ProjectCons(e: Emission, log: seq<Emission>, j: nat)
    ensures Project([e] + log, j) == (if e.reader == j then [Entry(e.time, e.text)] else []) + Project(log, j)
  {
    assert ([e] + log)[1..] == log;
  }

  /** Every line a reader will still show is before the sentinel. */
  predicate BeforeSentinel(srcs: seq<SrcState>, lib: Lib)
    requires Sound(lib)
  {
    forall j, e | 0 <= j < |srcs| && e in Pending(srcs[j], lib) :: e.time < FarFuture
  }

  /** The state in which `readFromInputs` starts and which each pass keeps:
      `activeReaders` counts the live readers, and no line is at or after
      the sentinel. */
  predicate Good(srcs: seq<SrcState>, active: int, lib: Lib)
    requires Sound(lib)
  {
    AllWF(srcs) && active == CountActive(srcs) && BeforeSentinel(srcs, lib)
  }

  /** With a live reader around, `nextReader` selects a live one. */
  lemma PickLive(srcs: seq<SrcState>, active: int, lib: Lib)
    requires Sound(lib) && Good(srcs, active, lib) && active >= 1
    ensures Pick(srcs) < |srcs| && srcs[Pick(srcs)].active
  {
    CountPositive(srcs);
    var j :| 0 <= j < |srcs| && srcs[j].active;
    assert Head(srcs[j]) in Pending(srcs[j], lib);
    assert srcs[j].active && (PeekTime(srcs[j]) == ZeroTime || PeekTime(srcs[j]) < FarFuture);
    assert HasTimed(srcs, |srcs|);
    PickScanLive(srcs, |srcs|);
  }

  /** One pass of the inner loop keeps the merge state good, and what every
      reader still has to show is what it had, less the line just emitted. */
  lemma StepKeeps(srcs: seq<SrcState>, active: int, i: nat, lib: Lib)
    requires Sound(lib) && Good(srcs, active, lib) && i < |srcs| && srcs[i].active
    ensures var r := Step(srcs[i], lib);
            var srcs' := srcs[i := r.next];
            var active' := if r.next.active then active else active - 1;
            && Good(srcs', active', lib)
            && active' <= |srcs'|
            && Pending(r.next, lib) == Pending(srcs[i], lib)[1..]
            && (r.more ==> r.next.active && active' == active)
            && Measure(srcs', active') < Measure(srcs, active)
  {
    var r := Step(srcs[i], lib);
    var srcs' := srcs[i := r.next];
    var active' := if r.next.active then active else active - 1;
    StepPops(srcs[i], lib);
    UnreadUpdate(srcs, i, r.next);
    CountUpdate(srcs, i, r.next);
    forall j, e | 0 <= j < |srcs'| && e in Pending(srcs'[j], lib)
      ensures e.time < FarFuture
    {
      if j == i {
        assert e in Pending(srcs[i], lib);
      } else {
        assert srcs'[j] == srcs[j];
      }
    }
  }

  /** Each reader's lines appear in the merged log exactly once and in input
      order (as long as no line is at or after the sentinel). */
  lemma {:induction false} MergeProject(srcs: seq<SrcState>, active: int, lib: Lib)
    requires Sound(lib) && Good(srcs, active, lib)
    ensures forall j | 0 <= j < |srcs| :: Project(MergeLog(srcs, active, lib), j) == Pending(srcs[j], lib)
    decreases Measure(srcs, active), 1
  {
    if active > 0 {
      PickLive(srcs, active, lib);
      RunProject(srcs, active, Pick(srcs), lib);
    } else {
      CountPositive(srcs);
    }
  }

  /** The same for the inner loop on a live reader. */
  lemma {:induction false} RunProject(srcs: seq<SrcState>, active: int, i: nat, lib: Lib)
    requires Sound(lib) && Good(srcs, active, lib) && i < |srcs| && srcs[i].active && active <= |srcs|
    ensures 1 <= active
    ensures forall j | 0 <= j < |srcs| :: Project(RunFrom(srcs, active, i, lib), j) == Pending(srcs[j], lib)
    decreases Measure(srcs, active), 0
  {
    CountPositive(srcs);
    var when := PeekTime(srcs[i]);
    var r := Step(srcs[i], lib);
    var srcs' := srcs[i := r.next];
    var active' := if r.next.active then active else active - 1;
    StepKeeps(srcs, active, i, lib);
    var e := Emission(i, when, srcs[i].text);
    var rest;
    if r.more && PeekTime(r.next) == when {
      RunProject(srcs', active', i, lib);
      rest := RunFrom(srcs', active', i, lib);
    } else {
      MergeProject(srcs', active', lib);
      rest := MergeLog(srcs', active', lib);
    }
    RunFromStep(srcs, active, i, lib);
    ProjectPop(srcs, srcs', i, e, rest, lib);
  }

  /** Emitting the buffered line of reader i in front of a log that projects
      onto what the readers show afterwards projects onto what they showed
      before. */
  lemma ProjectPop(srcs: seq<SrcState>, srcs': seq<SrcState>, i: nat, e: Emission, rest: seq<Emission>, lib: Lib)
    requires Sound(lib) && i < |srcs| == |srcs'| && srcs[i].active
    requires e == Emission(i, PeekTime(srcs[i]), srcs[i].text)
    requires forall j | 0 <= j < |srcs| && j != i :: srcs'[j] == srcs[j]
    requires Pending(srcs'[i], lib) == Pending(srcs[i], lib)[1..]
    requires forall j | 0 <= j < |srcs'| :: Project(rest, j) == Pending(srcs'[j], lib)
    ensures forall j | 0 <= j < |srcs| :: Project([e] + rest, j) == Pending(srcs[j], lib)
  {
    forall j | 0 <= j < |srcs|
      ensures Project([e] + rest, j) == Pending(srcs[j], lib)
    {
      ProjectCons(e, rest, j);
      if j == i {
        assert Pending(srcs[i], lib) == [Head(srcs[i])] + Pending(srcs[i], lib)[1..];
      }
    }
  }

  /** A line of the log is a line of the reader it names. */
  lemma {:induction false} ProjectHas(log: seq<Emission>, k: nat)
    requires k < |log|
    ensures Entry(log[k].time, log[k].text) in Project(log, log[k].reader)
    decreases k
  {
    ProjectCons(log[0], log[1..], log[k].reader);
    assert log == [log[0]] + log[1..];
    if k > 0 {
      ProjectHas(log[1..], k - 1);
    }
  }

  /** Every line of `log` is a pending line of the reader it names. */
  predicate FromPending(srcs: seq<SrcState>, log: seq<Emission>, lib: Lib)
    requires Sound(lib)
  {
    forall k | 0 <= k < |log| :: log[k].reader < |srcs| && Entry(log[k].time, log[k].text) in Pending(srcs[log[k].reader], lib)
  }

  /** Every line of the merged log is a pending line of its reader. */
  lemma EmissionsFromPending(srcs: seq<SrcState>, active: int, lib: Lib)
    requires Sound(lib) && Good(srcs, active, lib)
    ensures FromPending(srcs, MergeLog(srcs, active, lib), lib)
  {
    var log := MergeLog(srcs, active, lib);
    MergeProject(srcs, active, lib);
    forall k | 0 <= k < |log|
      ensures Entry(log[k].time, log[k].text) in Pending(srcs[log[k].reader], lib)
    {
      ProjectHas(log, k);
    }
  }

  // ---------------------------------------------------------------------
  // Time order
  // ---------------------------------------------------------------------

  /** Instants that never go backwards. */
  predicate Chrono(es: seq<Entry>)
  {
    forall a, b | 0 <= a < b < |es| :: es[a].time <= es[b].time
  }

  predicate LogSorted(log: seq<Emission>)
  {
    forall a, b | 0 <= a < b < |log| :: log[a].time <= log[b].time
  }

  /** Every reader's pending lines are in time order. */
  predicate AllChrono(srcs: seq<SrcState>, lib: Lib)
    requires Sound(lib)
  {
    forall j | 0 <= j < |srcs| :: Chrono(Pending(srcs[j], lib))
  }

  /** No pending line of any reader is before `lo`. */
  predicate PendingFrom(srcs: seq<SrcState>, lo: Instant, lib: Lib)
    requires Sound(lib)
  {
    forall j, e | 0 <= j < |srcs| && e in Pending(srcs[j], lib) :: lo <= e.time
  }

  lemma SortedCons(e: Emission, log: seq<Emission>)
    requires LogSorted(log)
    requires forall k | 0 <= k < |log| :: e.time <= log[k].time
    ensures LogSorted([e] + log)
  {
    var l := [e] + log;
    forall a, b | 0 <= a < b < |l|
      ensures l[a].time <= l[b].time
    {
      assert l[b] == log[b - 1];
      if a > 0 {
        assert l[a] == log[a - 1];
      }
    }
  }

  /** A pass keeps every reader's lines in time order and no earlier than
      they were. */
  lemma StepKeepsOrder(srcs: seq<SrcState>, active: int, i: nat, lo: Instant, lib: Lib)
    requires Sound(lib) && Good(srcs, active, lib) && i < |srcs| && srcs[i].active
    requires AllChrono(srcs, lib) && PendingFrom(srcs, lo, lib)
    ensures var srcs' := srcs[i := Step(srcs[i], lib).next];
            AllChrono(srcs', lib) && PendingFrom(srcs', lo, lib)
  {
    var r := Step(srcs[i], lib);
    var srcs' := srcs[i := r.next];
    StepKeeps(srcs, active, i, lib);
    forall j | 0 <= j < |srcs'|
      ensures Chrono(Pending(srcs'[j], lib))
    {
      if j == i {
        var p := Pending(srcs[i], lib);
        assert Chrono(p);
        forall a, b | 0 <= a < b < |p[1..]|
          ensures p[1..][a].time <= p[1..][b].time
        {
          assert p[1..][a] == p[a + 1] && p[1..][b] == p[b + 1];
        }
      } else {
        assert srcs'[j] == srcs[j];
      }
    }
    StepKeepsFrom(srcs, active, i, lo, lib);
  }

  /** A pass leaves no reader a line earlier than `lo` if none had one. */
  lemma StepKeepsFrom(srcs: seq<SrcState>, active: int, i: nat, lo: Instant, lib: Lib)
    requires Sound(lib) && Good(srcs, active, lib) && i < |srcs| && srcs[i].active
    requires PendingFrom(srcs, lo, lib)
    ensures PendingFrom(srcs[i := Step(srcs[i], lib).next], lo, lib)
  {
    var srcs' := srcs[i := Step(srcs[i], lib).next];
    StepKeeps(srcs, active, i, lib);
    forall j, e | 0 <= j < |srcs'| && e in Pending(srcs'[j], lib)
      ensures lo <= e.time
    {
      if j == i {
        assert e in Pending(srcs[i], lib);
      } else {
        assert srcs'[j] == srcs[j];
      }
    }
  }

  /** When every reader's lines are in time order and at or after the zero
      time (and before the sentinel), the merged log is in time order. */
  lemma {:induction false} MergeSorted(srcs: seq<SrcState>, active: int, lib: Lib)
    requires Sound(lib) && Good(srcs, active, lib)
    requires AllChrono(srcs, lib) && PendingFrom(srcs, ZeroTime, lib)
    ensures LogSorted(MergeLog(srcs, active, lib))
    decreases Measure(srcs, active), 1
  {
    if active > 0 {
      PickLive(srcs, active, lib);
      var i := Pick(srcs);
      forall j | 0 <= j < |srcs| && srcs[j].active
        ensures ZeroTime <= PeekTime(srcs[j])
      {
        assert Head(srcs[j]) in Pending(srcs[j], lib);
      }
      assert Head(srcs[i]) in Pending(srcs[i], lib);
      assert HasTimed(srcs, |srcs|);
      PickMinimal(srcs);
      forall j, e | 0 <= j < |srcs| && e in Pending(srcs[j], lib)
        ensures PeekTime(srcs[i]) <= e.time
      {
        var p := Pending(srcs[j], lib);
        var b :| 0 <= b < |p| && p[b] == e;
        assert Chrono(p) && p[0] == Head(srcs[j]);
      }
      RunSorted(srcs, active, i, lib);
    }
  }

  /** No line of the merged log is earlier than every pending line. */
  lemma MergeFrom(srcs: seq<SrcState>, active: int, lo: Instant, lib: Lib)
    requires Sound(lib) && Good(srcs, active, lib) && PendingFrom(srcs, lo, lib)
    ensures forall k | 0 <= k < |MergeLog(srcs, active, lib)| :: lo <= MergeLog(srcs, active, lib)[k].time
  {
    EmissionsFromPending(srcs, active, lib);
  }

  /** The same for the inner loop on a live reader. */
  lemma RunFromBound(srcs: seq<SrcState>, active: int, i: nat, lo: Instant, lib: Lib)
    requires Sound(lib) && Good(srcs, active, lib) && i < |srcs| && srcs[i].active && active <= |srcs|
    requires PendingFrom(srcs, lo, lib)
    ensures 1 <= active
    ensures forall k | 0 <= k < |RunFrom(srcs, active, i, lib)| :: lo <= RunFrom(srcs, active, i, lib)[k].time
  {
    RunFromPending(srcs, active, i, lib);
  }

  /** Every line the inner loop emits is a pending line of its reader. */
  lemma RunFromPending(srcs: seq<SrcState>, active: int, i: nat, lib: Lib)
    requires Sound(lib) && Good(srcs, active, lib) && i < |srcs| && srcs[i].active && active <= |srcs|
    ensures 1 <= active
    ensures FromPending(srcs, RunFrom(srcs, active, i, lib), lib)
  {
    CountPositive(srcs);
    var log := RunFrom(srcs, active, i, lib);
    RunProject(srcs, active, i, lib);
    forall k | 0 <= k < |log|
      ensures Entry(log[k].time, log[k].text) in Pending(srcs[log[k].reader], lib)
    {
      ProjectHas(log, k);
    }
  }

  /** The same for the inner loop on a live reader whose line is no later
      than any pending line. */
  lemma {:induction false} RunSorted(srcs: seq<SrcState>, active: int, i: nat, lib: Lib)
    requires Sound(lib) && Good(srcs, active, lib) && i < |srcs| && srcs[i].active && active <= |srcs|
    requires AllChrono(srcs, lib) && PendingFrom(srcs, PeekTime(srcs[i]), lib) && ZeroTime <= PeekTime(srcs[i])
    ensures 1 <= active
    ensures LogSorted(RunFrom(srcs, active, i, lib))
    decreases Measure(srcs, active), 0
  {
    CountPositive(srcs);
    var when := PeekTime(srcs[i]);
    var r := Step(srcs[i], lib);
    var srcs' := srcs[i := r.next];
    var active' := if r.next.active then active else active - 1;
    StepKeeps(srcs, active, i, lib);
    StepKeepsOrder(srcs, active, i, when, lib);
    var e := Emission(i, when, srcs[i].text);
    if r.more && PeekTime(r.next) == when {
      var rest := RunFrom(srcs', active', i, lib);
      assert RunFrom(srcs, active, i, lib) == [e] + rest;
      RunSorted(srcs', active', i, lib);
      RunFromBound(srcs', active', i, when, lib);
      SortedCons(e, rest);
    } else {
      StepKeepsOrder(srcs, active, i, ZeroTime, lib);
      var rest := MergeLog(srcs', active', lib);
      assert RunFrom(srcs, active, i, lib) == [e] + rest;
      MergeSorted(srcs', active', lib);
      MergeFrom(srcs', active', when, lib);
      SortedCons(e, rest);
    }
  }

  // ---------------------------------------------------------------------
  // Lines without a timestamp, and ties
  // ---------------------------------------------------------------------

  /** No live reader is unbound. */
  predicate NoLiveUnbound(srcs: seq<SrcState>)
  {
    forall j | 0 <= j < |srcs| && srcs[j].active :: srcs[j].extractor.Some?
  }

  /** Every line of an unbound reader comes before every line with an
      instant. */
  predicate UnboundFirst(srcs: seq<SrcState>, log: seq<Emission>)
  {
    forall a, b | 0 <= a < |log| && 0 <= b < |log| && log[a].reader < |srcs|
                  && srcs[log[a].reader].extractor.None? && log[b].time != ZeroTime :: a < b
  }

  /** Lines sharing an instant other than the zero time come out grouped
      by registration: an earlier-registered reader's before a later one's. */
  predicate TiesByRegistration(log: seq<Emission>)
  {
    forall a, b | 0 <= a < b < |log| && log[a].time == log[b].time && log[a].time != ZeroTime
                  && log[a].reader != log[b].reader :: log[a].reader < log[b].reader
  }

  /** Under instants at or after the zero time, the merge emits every line
      of every unbound reader before any line with an instant: while an
      unbound reader is live it shows the zero time, so `nextReader` only
      selects readers showing the zero time. */
  lemma {:induction false} MergeUnboundFirst(srcs: seq<SrcState>, active: int, lib: Lib)
    requires Sound(lib) && Good(srcs, active, lib) && PendingFrom(srcs, ZeroTime, lib)
    ensures UnboundFirst(srcs, MergeLog(srcs, active, lib))
    decreases Measure(srcs, active), 1
  {
    if active > 0 {
      PickLive(srcs, active, lib);
      var i := Pick(srcs);
      forall j | 0 <= j < |srcs| && srcs[j].active
        ensures ZeroTime <= PeekTime(srcs[j])
      {
        assert Head(srcs[j]) in Pending(srcs[j], lib);
      }
      PickRule(srcs);
      if PeekTime(srcs[i]) != ZeroTime {
        assert !HasZero(srcs, |srcs|);
      }
      RunUnboundFirst(srcs, active, i, lib);
    }
  }

  /** The same for the inner loop on a live reader, which runs on a line
      with an instant only once no unbound reader is live. */
  lemma {:induction false} RunUnboundFirst(srcs: seq<SrcState>, active: int, i: nat, lib: Lib)
    requires Sound(lib) && Good(srcs, active, lib) && i < |srcs| && srcs[i].active && active <= |srcs|
    requires PendingFrom(srcs, ZeroTime, lib)
    requires PeekTime(srcs[i]) != ZeroTime ==> NoLiveUnbound(srcs)
    ensures 1 <= active
    ensures UnboundFirst(srcs, RunFrom(srcs, active, i, lib))
    decreases Measure(srcs, active), 0
  {
    CountPositive(srcs);
    var when := PeekTime(srcs[i]);
    var r := Step(srcs[i], lib);
    var srcs' := srcs[i := r.next];
    var active' := if r.next.active then active else active - 1;
    var e := Emission(i, when, srcs[i].text);
    var stay := r.more && PeekTime(r.next) == when;
    RunFromStep(srcs, active, i, lib);
    var rest := if stay then RunFrom(srcs', active', i, lib) else MergeLog(srcs', active', lib);
    assert UnboundFirst(srcs', rest) && FromPending(srcs', rest, lib) by {
      StepKeeps(srcs, active, i, lib);
      StepKeepsFrom(srcs, active, i, ZeroTime, lib);
      if stay {
        assert when != ZeroTime ==> NoLiveUnbound(srcs');
        RunUnboundFirst(srcs', active', i, lib);
        RunFromPending(srcs', active', i, lib);
      } else {
        MergeUnboundFirst(srcs', active', lib);
        EmissionsFromPending(srcs', active', lib);
      }
    }
    UnboundFirstCons(srcs, srcs', i, e, rest, lib);
  }

  /** Emitting reader i's line in front of the rest keeps unbound lines
      first: a line with an instant is emitted only when no unbound reader
      is live, and the rest comes from live readers. */
  lemma UnboundFirstCons(srcs: seq<SrcState>, srcs': seq<SrcState>, i: nat, e: Emission, rest: seq<Emission>, lib: Lib)
    requires Sound(lib) && i < |srcs| == |srcs'| && srcs[i].active
    requires e == Emission(i, PeekTime(srcs[i]), srcs[i].text)
    requires forall j | 0 <= j < |srcs| && j != i :: srcs'[j] == srcs[j]
    requires srcs'[i].extractor == srcs[i].extractor
    requires PeekTime(srcs[i]) != ZeroTime ==> NoLiveUnbound(srcs)
    requires UnboundFirst(srcs', rest)
    requires FromPending(srcs', rest, lib)
    ensures UnboundFirst(srcs, [e] + rest)
  {
    var log := [e] + rest;
    if e.time != ZeroTime {
      forall k | 0 <= k < |log|
        ensures log[k].reader < |srcs| && srcs[log[k].reader].extractor.Some?
      {
        if k > 0 {
          var c := rest[k - 1];
          assert log[k] == c;
          assert Entry(c.time, c.text) in Pending(srcs'[c.reader], lib);
          assert srcs'[c.reader].active;
        }
      }
    } else {
      forall a, b | 0 <= a < |log| && 0 <= b < |log| && log[a].reader < |srcs|
                    && srcs[log[a].reader].extractor.None? && log[b].time != ZeroTime
        ensures a < b
      {
        assert b > 0;
        if a > 0 {
          assert log[a] == rest[a - 1] && log[b] == rest[b - 1];
          assert srcs'[rest[a - 1].reader].extractor == srcs[rest[a - 1].reader].extractor;
        }
      }
    }
  }

  /** Reader i's line, unless at the zero time, is strictly earlier than the
      line of every live reader registered before it. */
  predicate Leads(srcs: seq<SrcState>, i: nat)
    requires i < |srcs|
  {
    PeekTime(srcs[i]) != ZeroTime ==> forall j | 0 <= j < i && srcs[j].active :: PeekTime(srcs[i]) < PeekTime(srcs[j])
  }

  /** A reader whose lines are in time order shows, as its buffered line,
      one no later than any of them. */
  lemma HeadBelow(s: SrcState, e: Entry, lib: Lib)
    requires Sound(lib) && Chrono(Pending(s, lib)) && e in Pending(s, lib)
    ensures s.active && Head(s) in Pending(s, lib) && PeekTime(s) <= e.time
  {
    var p := Pending(s, lib);
    var x :| 0 <= x < |p| && p[x] == e;
    assert p[0] == Head(s);
  }

  /** When every reader's lines are in time order and at or after the zero
      time (and before the sentinel), lines sharing an instant other than
      the zero time come out in the order their readers were registered. */
  lemma {:induction false} MergeTies(srcs: seq<SrcState>, active: int, lib: Lib)
    requires Sound(lib) && Good(srcs, active, lib)
    requires AllChrono(srcs, lib) && PendingFrom(srcs, ZeroTime, lib)
    ensures TiesByRegistration(MergeLog(srcs, active, lib))
    decreases Measure(srcs, active), 1
  {
    if active > 0 {
      PickLive(srcs, active, lib);
      var i := Pick(srcs);
      forall j | 0 <= j < |srcs| && srcs[j].active
        ensures ZeroTime <= PeekTime(srcs[j])
      {
        assert Head(srcs[j]) in Pending(srcs[j], lib);
      }
      assert Head(srcs[i]) in Pending(srcs[i], lib);
      assert HasTimed(srcs, |srcs|);
      PickRule(srcs);
      if PeekTime(srcs[i]) != ZeroTime {
        assert !HasZero(srcs, |srcs|);
      }
      forall j, e | 0 <= j < |srcs| && e in Pending(srcs[j], lib)
        ensures PeekTime(srcs[i]) <= e.time
      {
        var p := Pending(srcs[j], lib);
        var b :| 0 <= b < |p| && p[b] == e;
        assert Chrono(p) && p[0] == Head(srcs[j]);
      }
      RunTies(srcs, active, i, lib);
    }
  }

  /** The same for the inner loop on a reader whose line is no later than
      any pending line and, unless at the zero time, strictly earlier than
      the line of every live reader registered before it. */
  lemma {:induction false} RunTies(srcs: seq<SrcState>, active: int, i: nat, lib: Lib)
    requires Sound(lib) && Good(srcs, active, lib) && i < |srcs| && srcs[i].active && active <= |srcs|
    requires AllChrono(srcs, lib) && PendingFrom(srcs, PeekTime(srcs[i]), lib) && ZeroTime <= PeekTime(srcs[i])
    requires Leads(srcs, i)
    ensures 1 <= active
    ensures TiesByRegistration(RunFrom(srcs, active, i, lib))
    decreases Measure(srcs, active), 0
  {
    CountPositive(srcs);
    var when := PeekTime(srcs[i]);
    var r := Step(srcs[i], lib);
    var srcs' := srcs[i := r.next];
    var active' := if r.next.active then active else active - 1;
    var e := Emission(i, when, srcs[i].text);
    var stay := r.more && PeekTime(r.next) == when;
    RunFromStep(srcs, active, i, lib);
    var rest := if stay then RunFrom(srcs', active', i, lib) else MergeLog(srcs', active', lib);
    assert TiesByRegistration(rest) && FromPending(srcs', rest, lib) by {
      StepKeeps(srcs, active, i, lib);
      StepKeepsOrder(srcs, active, i, when, lib);
      if stay {
        RunTies(srcs', active', i, lib);
        RunFromPending(srcs', active', i, lib);
      } else {
        StepKeepsOrder(srcs, active, i, ZeroTime, lib);
        MergeTies(srcs', active', lib);
        EmissionsFromPending(srcs', active', lib);
      }
    }
    TiesCons(srcs, srcs', i, e, rest, lib);
  }

  /** Emitting reader i's line in front of the rest keeps ties in
      registration order: a later line at the same instant from another
      reader is that reader's buffered line, so it is not registered before
      reader i. */
  lemma TiesCons(srcs: seq<SrcState>, srcs': seq<SrcState>, i: nat, e: Emission, rest: seq<Emission>, lib: Lib)
    requires Sound(lib) && i < |srcs| == |srcs'| && srcs[i].active
    requires e == Emission(i, PeekTime(srcs[i]), srcs[i].text)
    requires forall j | 0 <= j < |srcs| && j != i :: srcs'[j] == srcs[j]
    requires AllChrono(srcs, lib) && PendingFrom(srcs, PeekTime(srcs[i]), lib)
    requires Leads(srcs, i)
    requires TiesByRegistration(rest)
    requires FromPending(srcs', rest, lib)
    ensures TiesByRegistration([e] + rest)
  {
    forall k | 0 <= k < |rest| && rest[k].time == e.time && e.time != ZeroTime && rest[k].reader != i
      ensures i < rest[k].reader
    {
      var c := rest[k];
      assert srcs'[c.reader] == srcs[c.reader];
      HeadBelow(srcs[c.reader], Entry(c.time, c.text), lib);
    }
    ConsTies(e, rest);
  }

  /** A line in front of a log whose ties are in registration order keeps
      them so when every later line at its instant from another reader comes
      from a reader registered after it. */
  lemma ConsTies(e: Emission, rest: seq<Emission>)
    requires TiesByRegistration(rest)
    requires forall k | 0 <= k < |rest| && rest[k].time == e.time && e.time != ZeroTime && rest[k].reader != e.reader ::
               e.reader < rest[k].reader
    ensures TiesByRegistration([e] + rest)
  {
    var log := [e] + rest;
    forall a, b | 0 <= a < b < |log| && log[a].time == log[b].time && log[a].time != ZeroTime
                  && log[a].reader != log[b].reader
      ensures log[a].reader < log[b].reader
    {
      assert log[b] == rest[b - 1];
      if a > 0 {
        assert log[a] == rest[a - 1];
      }
    }
  }

  // ---------------------------------------------------------------------
  // Runs
  // ---------------------------------------------------------------------

  /** The length of the longest prefix whose lines share the first line's
      instant. */
  function SameRun(es: seq<Entry>): (n: nat)
    ensures n <= |es| && (es != [] ==> 1 <= n)
    ensures forall k | 0 <= k < n :: es[k].time == es[0].time
    ensures n < |es| ==> es[n].time != es[0].time
    decreases |es|
  {
    if |es| <= 1 then |es|
    else if es[1].time == es[0].time then 1 + SameRun(es[1..])
    else 1
  }

  /** The inner loop on a live reader emits, uninterrupted, every line of
      that reader up to the first one whose instant differs. */
  lemma {:induction false} RunGroup(srcs: seq<SrcState>, active: int, i: nat, lib: Lib)
    requires Sound(lib) && AllWF(srcs) && 1 <= active <= |srcs| && i < |srcs| && srcs[i].active
    ensures var p := Pending(srcs[i], lib);
            var log := RunFrom(srcs, active, i, lib);
            SameRun(p) <= |log|
            && forall k | 0 <= k < SameRun(p) :: log[k] == Emission(i, p[k].time, p[k].text)
    decreases |srcs[i].unread|
  {
    var p := Pending(srcs[i], lib);
    var when := PeekTime(srcs[i]);
    var r := Step(srcs[i], lib);
    var srcs' := srcs[i := r.next];
    var active' := if r.next.active then active else active - 1;
    StepPops(srcs[i], lib);
    var e := Emission(i, when, srcs[i].text);
    var log := RunFrom(srcs, active, i, lib);
    RunFromStep(srcs, active, i, lib);
    if SameRun(p) > 1 {
      assert r.more && p[1] == Head(r.next);
      assert PeekTime(r.next) == when;
      assert SameRun(p[1..]) == SameRun(p) - 1;
      RunGroup(srcs', active', i, lib);
      var rest := RunFrom(srcs', active', i, lib);
      assert log == [e] + rest;
      forall k | 0 <= k < SameRun(p)
        ensures log[k] == Emission(i, p[k].time, p[k].text)
      {
        if k > 0 {
          assert log[k] == rest[k - 1] && p[k] == p[1..][k - 1];
        }
      }
    }
  }

  /** A reader with no bound extractor, once selected, is drained in a
      single uninterrupted run. */
  lemma UnboundDrains(srcs: seq<SrcState>, active: int, i: nat, lib: Lib)
    requires Sound(lib) && AllWF(srcs) && 1 <= active <= |srcs| && i < |srcs|
    requires srcs[i].active && srcs[i].extractor.None?
    ensures var p := Pending(srcs[i], lib);
            var log := RunFrom(srcs, active, i, lib);
            |p| <= |log|
            && forall k | 0 <= k < |p| :: log[k] == Emission(i, ZeroTime, p[k].text)
  {
    var p := Pending(srcs[i], lib);
    UnboundAllZero(srcs[i], lib);
    RunGroup(srcs, active, i, lib);
    forall k | 0 <= k < |p|
      ensures p[k].time == ZeroTime
    {
      assert p[k] in p;
    }
    assert SameRun(p) == |p|;
  }

  // ---------------------------------------------------------------------
  // The sentinel
  // ---------------------------------------------------------------------

  /** A library whose regular expressions never match. */
  function Inert(): (lib: Lib)
    ensures Sound(lib)
  {
    Lib(_ => true, (re, line) => None, (layout, value) => None, _ => 1, (t, y) => t, _ => "", 2020)
  }

  /** With two bound readers whose last lines are at the sentinel,
      `nextReader` falls back to reader 0 twice: its line is emitted twice,
      after it has ended, and reader 1's line is never emitted. */
  lemma SentinelDefault()
    ensures var lib := Inert();
            var a := SrcState(Some(Extract.Extractor("", "")), FarFuture, "a", [], true);
            var b := SrcState(Some(Extract.Extractor("", "")), FarFuture, "b", [], true);
            MergeLog([a, b], 2, lib)
              == [Emission(0, FarFuture, "a"), Emission(0, FarFuture, "a")]
  {
    var lib := Inert();
    var a := SrcState(Some(Extract.Extractor("", "")), FarFuture, "a", [], true);
    var b := SrcState(Some(Extract.Extractor("", "")), FarFuture, "b", [], true);
    var srcs := [a, b];
    assert PickScan(srcs, 1) == Choice(0, FarFuture);
    assert Pick(srcs) == 0;
    var srcs1 := srcs[0 := a.(active := false)];
    assert PickScan(srcs1, 1) == Choice(0, FarFuture);
    assert Pick(srcs1) == 0;
    var srcs2 := srcs1[0 := a.(active := false)];
    assert MergeLog(srcs1, 1, lib) == [Emission(0, FarFuture, "a")] + MergeLog(srcs2, 0, lib);
  }
}
