/**
 * The rules by which a run is watched: each cycle polls the progress route
 * once, and the answer decides whether the watch ends, whether an interim
 * report is taken, and how the three counters of the loop move on. The
 * imperative loop lives in `ScriptExecutor`; this module is its
 * specification and the properties it has.
 */
module ProgressMonitor {
  import opened Types

  /** Consecutive failed polls after which the watch is abandoned. */
  const MaxRetries: nat := 5

  /** Why the watch ended; `OutOfPolls` only means the given answers ran out. */
  datatype Exit = Stopped | Abandoned | OutOfPolls

  /** The loop's variables `lastReportedProgress`, `nextThreshold` and `retryCount`. */
  datatype Monitor = Monitor(lastReported: int, nextThreshold: int, retries: nat)

  /** The outcome of one cycle: carry on (maybe with a report taken) or leave the loop. */
  datatype Cycle = Continue(next: Monitor, snapshot: Option<int>) | Halt(exit: Exit, last: Monitor)

  /**
   * The counters before the first poll, for report frequency `f`: nothing
   * reported yet, the first threshold one frequency step up, no failures.
   */
  function Start(f: int): (m: Monitor)
    ensures m.lastReported == 0 && m.nextThreshold == f && m.retries == 0
  {
    Monitor(0, f, 0)
  }

  predicate Running(s: Status) {
    s == Play || s == Pause
  }

  /** An interim report is due for this answer. */
  predicate Fires(m: Monitor, p: Progress) {
    Running(p.status) && p.progress > m.lastReported && p.progress != 100 && p.progress >= m.nextThreshold
  }

  /** The answer makes the loop break, given the failure count before it. */
  predicate Halts(retries: nat, poll: Option<Progress>) {
    match poll
    case None => retries + 1 >= MaxRetries
    case Some(p) => p.status == Stop
  }

  /** The failure counter after one poll. */
  function NextRetries(retries: nat, poll: Option<Progress>): nat {
    if poll.None? then retries + 1 else 0
  }

  /** How many polls at the head of `polls` failed in a row. */
  function LeadingFailures(polls: seq<Option<Progress>>): (n: nat)
    ensures n <= |polls|
    ensures forall j :: 0 <= j < n ==> polls[j].None?
    ensures n < |polls| ==> polls[n].Some?
  {
    if |polls| == 0 || polls[0].Some? then 0 else 1 + LeadingFailures(polls[1..])
  }

  /** The failure counter after a series of polls. */
  function RetriesAfter(retries: nat, polls: seq<Option<Progress>>): nat
    decreases |polls|
  {
    if polls == [] then retries else RetriesAfter(NextRetries(retries, polls[0]), polls[1..])
  }

  /** One cycle of the loop, for report frequency `f`. */
  function Step(m: Monitor, poll: Option<Progress>, f: int): (c: Cycle)
    ensures c.Halt? <==> Halts(m.retries, poll)
    ensures c.Halt? ==> c.exit == (if poll.None? then Abandoned else Stopped)
    ensures c.Halt? ==> c.last == m.(retries := NextRetries(m.retries, poll))
    ensures c.Continue? ==> c.next.retries == NextRetries(m.retries, poll)
    ensures c.Continue? ==> (c.snapshot.Some? <==> poll.Some? && Fires(m, poll.value))
    ensures c.Continue? && c.snapshot.Some? ==>
      c.snapshot.value == poll.value.progress && c.next.nextThreshold == m.nextThreshold + f
    ensures c.Continue? && c.snapshot.None? ==> c.next.nextThreshold == m.nextThreshold
    ensures c.Continue? && poll.Some? && Running(poll.value.status) ==>
      c.next.lastReported == if poll.value.progress > m.lastReported then poll.value.progress else m.lastReported
    ensures c.Continue? && (poll.None? || !Running(poll.value.status)) ==>
      c.next == m.(retries := NextRetries(m.retries, poll))
  {
    match poll
    case None =>
      if m.retries + 1 >= MaxRetries then Halt(Abandoned, m.(retries := m.retries + 1))
      else Continue(m.(retries := m.retries + 1), None)
    case Some(p) =>
      var m := m.(retries := 0);
      if p.status == Stop then Halt(Stopped, m)
      else if Running(p.status) && p.progress > m.lastReported then
        if p.progress != 100 && p.progress >= m.nextThreshold
        then Continue(Monitor(p.progress, m.nextThreshold + f, 0), Some(p.progress))
        else Continue(m.(lastReported := p.progress), None)
      else Continue(m, None)
  }

  /** A watch: why it ended, the reports taken, how many answers it read, the final counters. */
  datatype Run = Run(exit: Exit, snapshots: seq<int>, consumed: nat, final: Monitor)

  /** The watch from counters `m` over the answers `polls`, in order. */
  function Monitoring(m: Monitor, polls: seq<Option<Progress>>, f: int): (r: Run)
    decreases |polls|
    ensures r.consumed <= |polls|
    ensures r.exit == OutOfPolls ==> r.consumed == |polls|
    ensures polls == [] ==> r.exit == OutOfPolls
    ensures r.exit != OutOfPolls ==> r.consumed >= 1
  {
    if polls == [] then Run(OutOfPolls, [], 0, m)
    else match Step(m, polls[0], f)
      case Halt(e, last) => Run(e, [], 1, last)
      case Continue(next, snap) =>
        var rest := Monitoring(next, polls[1..], f);
        Run(rest.exit, (if snap.Some? then [snap.value] else []) + rest.snapshots, rest.consumed + 1, rest.final)
  }

  /** The watch as its first cycle, then the watch over the remaining answers. */
  lemma MonitoringFirst(m: Monitor, polls: seq<Option<Progress>>, f: int)
    requires polls != []
    ensures var c := Step(m, polls[0], f);
      var r := Monitoring(m, polls, f);
      if c.Halt? then r.exit == c.exit && r.snapshots == [] && r.consumed == 1 && r.final == c.last
      else
        var rest := Monitoring(c.next, polls[1..], f);
        && r.exit == rest.exit && r.consumed == rest.consumed + 1 && r.final == rest.final
        && r.snapshots == (if c.snapshot.Some? then [c.snapshot.value] else []) + rest.snapshots
  {
  }

  /**
   * A watch split after `consumed` answers that produced `snapshots`, with the
   * counters `m` and the answers `polls` still to come.
   */
  ghost predicate SplitAt(whole: Run, consumed: nat, snapshots: seq<int>, m: Monitor, polls: seq<Option<Progress>>, f: int) {
    var rest := Monitoring(m, polls, f);
    && whole.exit == rest.exit && whole.snapshots == snapshots + rest.snapshots
    && whole.consumed == consumed + rest.consumed && whole.final == rest.final
  }

  /** A cycle that breaks the loop fixes the whole watch. */
  lemma HaltCycle(whole: Run, consumed: nat, snapshots: seq<int>, m: Monitor, polls: seq<Option<Progress>>, f: int,
                  exit: Exit, last: Monitor)
    requires polls != [] && SplitAt(whole, consumed, snapshots, m, polls, f)
    requires Step(m, polls[0], f) == Halt(exit, last)
    ensures whole.exit == exit && whole.snapshots == snapshots && whole.consumed == consumed + 1 && whole.final == last
  {
    assert snapshots + [] == snapshots;
  }

  /** A cycle that carries on moves the split one answer further. */
  lemma ContinueCycle(whole: Run, consumed: nat, snapshots: seq<int>, m: Monitor, polls: seq<Option<Progress>>, f: int,
                      next: Monitor, snapshot: Option<int>)
    requires polls != [] && SplitAt(whole, consumed, snapshots, m, polls, f)
    requires Step(m, polls[0], f) == Continue(next, snapshot)
    ensures SplitAt(whole, consumed + 1, if snapshot.Some? then snapshots + [snapshot.value] else snapshots, next, polls[1..], f)
  {
    var rest := Monitoring(next, polls[1..], f);
    if snapshot.Some? {
      assert Monitoring(m, polls, f).snapshots == [snapshot.value] + rest.snapshots;
      assert snapshots + ([snapshot.value] + rest.snapshots) == (snapshots + [snapshot.value]) + rest.snapshots;
    } else {
      assert Monitoring(m, polls, f).snapshots == [] + rest.snapshots;
      assert [] + rest.snapshots == rest.snapshots;
    }
  }

  /**
   * `nextThreshold` moves by `f` for every report and only then: it equals
   * the starting threshold plus `f` times the number of reports taken.
   */
  lemma {:induction false} ThresholdTracksSnapshots(m: Monitor, polls: seq<Option<Progress>>, f: int)
    ensures var r := Monitoring(m, polls, f);
      r.final.nextThreshold == m.nextThreshold + f * |r.snapshots|
    decreases |polls|
  {
    if polls != [] {
      var c := Step(m, polls[0], f);
      if c.Continue? {
        ThresholdTracksSnapshots(c.next, polls[1..], f);
        var r, rest := Monitoring(m, polls, f), Monitoring(c.next, polls[1..], f);
        var k := if c.snapshot.Some? then 1 else 0;
        assert r.final == rest.final && |r.snapshots| == k + |rest.snapshots|;
        assert c.next.nextThreshold == m.nextThreshold + f * k;
        assert f * (k + |rest.snapshots|) == f * k + f * |rest.snapshots|;
      }
    }
  }

  /** From the start, `nextThreshold == frequency * (1 + reports taken so far)`. */
  lemma ThresholdFromStart(polls: seq<Option<Progress>>, f: int)
    ensures var r := Monitoring(Start(f), polls, f);
      r.final.nextThreshold == f * (1 + |r.snapshots|)
  {
    ThresholdTracksSnapshots(Start(f), polls, f);
  }

  /**
   * Every report is taken above the progress already reported and never
   * beyond the final `lastReportedProgress`, which never falls.
   */
  lemma {:induction false} SnapshotsAboveLast(m: Monitor, polls: seq<Option<Progress>>, f: int)
    ensures var r := Monitoring(m, polls, f);
      && r.final.lastReported >= m.lastReported
      && (forall k :: 0 <= k < |r.snapshots| ==> m.lastReported < r.snapshots[k] <= r.final.lastReported)
    decreases |polls|
  {
    if polls != [] {
      var c := Step(m, polls[0], f);
      if c.Continue? {
        SnapshotsAboveLast(c.next, polls[1..], f);
      }
    }
  }

  /** The k-th value is not 100 and lies at or beyond `start + f * k`. */
  predicate MeetThresholds(s: seq<int>, start: int, f: int) {
    forall k :: 0 <= k < |s| ==> s[k] != 100 && s[k] >= start + f * k
  }

  /** The k-th report is never at 100 and lies at or beyond the k-th threshold. */
  lemma {:induction false} SnapshotsMeetThresholds(m: Monitor, polls: seq<Option<Progress>>, f: int)
    ensures MeetThresholds(Monitoring(m, polls, f).snapshots, m.nextThreshold, f)
    decreases |polls|
  {
    if polls != [] {
      var c := Step(m, polls[0], f);
      if c.Continue? {
        SnapshotsMeetThresholds(c.next, polls[1..], f);
        var rest := Monitoring(c.next, polls[1..], f);
        var r := Monitoring(m, polls, f);
        assert r.snapshots == (if c.snapshot.Some? then [c.snapshot.value] else []) + rest.snapshots;
        forall k | 0 <= k < |r.snapshots|
          ensures r.snapshots[k] != 100 && r.snapshots[k] >= m.nextThreshold + f * k
        {
          if c.snapshot.None? {
            assert r.snapshots[k] == rest.snapshots[k];
          } else if k > 0 {
            assert r.snapshots[k] == rest.snapshots[k - 1];
            assert f * k == f + f * (k - 1);
          }
        }
      }
    }
  }

  /** Reports are taken at strictly increasing progress values. */
  lemma {:induction false} SnapshotsIncrease(m: Monitor, polls: seq<Option<Progress>>, f: int)
    ensures var r := Monitoring(m, polls, f);
      forall j, k :: 0 <= j < k < |r.snapshots| ==> r.snapshots[j] < r.snapshots[k]
    decreases |polls|
  {
    if polls != [] {
      var c := Step(m, polls[0], f);
      if c.Continue? {
        SnapshotsIncrease(c.next, polls[1..], f);
        SnapshotsAboveLast(c.next, polls[1..], f);
        var rest := Monitoring(c.next, polls[1..], f);
        var r := Monitoring(m, polls, f);
        if c.snapshot.Some? {
          forall j, k | 0 <= j < k < |r.snapshots| ensures r.snapshots[j] < r.snapshots[k] {
            assert r.snapshots[k] == rest.snapshots[k - 1];
            if j > 0 {
              assert r.snapshots[j] == rest.snapshots[j - 1];
            }
          }
        }
      }
    }
  }

  /** Every report is taken at a progress value the server sent. */
  lemma {:induction false} SnapshotsBounded(m: Monitor, polls: seq<Option<Progress>>, f: int, bound: int)
    requires forall j :: 0 <= j < |polls| && polls[j].Some? ==> polls[j].value.progress <= bound
    ensures forall k :: 0 <= k < |Monitoring(m, polls, f).snapshots| ==> Monitoring(m, polls, f).snapshots[k] <= bound
    decreases |polls|
  {
    if polls != [] {
      var c := Step(m, polls[0], f);
      if c.Continue? {
        SnapshotsBounded(c.next, polls[1..], f, bound);
      }
    }
  }

  /**
   * With a positive frequency and progress never above 100, the interim
   * reports taken satisfy `frequency * count < 100`: the last one lies at
   * or beyond `frequency * count` and below 100.
   */
  lemma SnapshotCountBound(polls: seq<Option<Progress>>, f: int)
    requires f > 0
    requires forall j :: 0 <= j < |polls| && polls[j].Some? ==> polls[j].value.progress <= 100
    ensures f * |Monitoring(Start(f), polls, f).snapshots| < 100
  {
    var r := Monitoring(Start(f), polls, f);
    SnapshotsMeetThresholds(Start(f), polls, f);
    SnapshotsBounded(Start(f), polls, f, 100);
    ThresholdsBelowHundred(r.snapshots, f);
  }

  /** Values meeting the thresholds `f, 2f, …`, never 100 and at most 100, satisfy `f * count < 100`. */
  lemma ThresholdsBelowHundred(s: seq<int>, f: int)
    requires f > 0 && MeetThresholds(s, f, f)
    requires forall k :: 0 <= k < |s| ==> s[k] <= 100
    ensures f * |s| < 100
  {
    var n := |s|;
    if n > 0 {
      var last := s[n - 1];
      assert last != 100 && last <= 100 && last >= f + f * (n - 1);
      assert f * n == f + f * (n - 1);
    }
  }

  /** A successful poll clears the failure counter; a failed one adds one to it. */
  lemma {:induction false} RetriesAfterAppend(r0: nat, polls: seq<Option<Progress>>, poll: Option<Progress>)
    ensures RetriesAfter(r0, polls + [poll]) == NextRetries(RetriesAfter(r0, polls), poll)
    decreases |polls|
  {
    if polls == [] {
      assert ([] + [poll])[1..] == [];
    } else {
      assert (polls + [poll])[1..] == polls[1..] + [poll];
      RetriesAfterAppend(NextRetries(r0, polls[0]), polls[1..], poll);
    }
  }

  /**
   * The watch ends at the first answer that halts it: the stop status, or
   * the failed poll that brings the consecutive-failure count to five. No
   * earlier answer halts it, and the final counter is the count of the
   * failures that trail the last successful poll.
   */
  lemma {:induction false} ExitIsFirstHalt(m: Monitor, polls: seq<Option<Progress>>, f: int)
    ensures var r := Monitoring(m, polls, f);
      var last := if r.exit == OutOfPolls then r.consumed else r.consumed - 1;
      && (forall j :: 0 <= j < last ==> !Halts(RetriesAfter(m.retries, polls[..j]), polls[j]))
      && (r.exit != OutOfPolls ==> Halts(RetriesAfter(m.retries, polls[..last]), polls[last]))
      && (r.exit == Stopped <==> r.exit != OutOfPolls && polls[last].Some?)
      && r.final.retries == RetriesAfter(m.retries, polls[..r.consumed])
    decreases |polls|
  {
    var r := Monitoring(m, polls, f);
    if polls == [] {
      return;
    }
    var c := Step(m, polls[0], f);
    assert polls[..1][1..] == [];
    assert RetriesAfter(m.retries, polls[..0]) == m.retries;
    if c.Halt? {
      return;
    }
    ExitIsFirstHalt(c.next, polls[1..], f);
    var rest := Monitoring(c.next, polls[1..], f);
    forall j | 1 <= j <= |polls|
      ensures RetriesAfter(m.retries, polls[..j]) == RetriesAfter(c.next.retries, polls[1..][..j - 1])
    {
      assert polls[..j][0] == polls[0];
      assert polls[..j][1..] == polls[1..][..j - 1];
    }
    var last := if r.exit == OutOfPolls then r.consumed else r.consumed - 1;
    forall j | 0 <= j < last ensures !Halts(RetriesAfter(m.retries, polls[..j]), polls[j]) {
      if j > 0 {
        assert polls[j] == polls[1..][j - 1];
      }
    }
    if r.exit != OutOfPolls {
      assert polls[last] == polls[1..][last - 1];
    }
  }

  /** Answers after the one that ends the watch are never read. */
  lemma {:induction false} MonitoringStopsAtExit(m: Monitor, polls: seq<Option<Progress>>, extra: seq<Option<Progress>>, f: int)
    requires Monitoring(m, polls, f).exit != OutOfPolls
    ensures Monitoring(m, polls + extra, f) == Monitoring(m, polls, f)
    decreases |polls|
  {
    var c := Step(m, polls[0], f);
    assert (polls + extra)[0] == polls[0];
    if c.Continue? {
      assert (polls + extra)[1..] == polls[1..] + extra;
      MonitoringStopsAtExit(c.next, polls[1..], extra, f);
    }
  }

  /** Five failed polls in a row from a clean counter abandon the watch, with no report. */
  lemma AbandonedAfterFiveFailures(m: Monitor, rest: seq<Option<Progress>>, f: int)
    requires m.retries == 0
    ensures var r := Monitoring(m, [None, None, None, None, None] + rest, f);
      r.exit == Abandoned && r.consumed == 5 && r.snapshots == [] && r.final == m.(retries := 5)
  {
    var polls := [None, None, None, None, None];
    assert Monitoring(m, polls, f).exit == Abandoned;
    MonitoringStopsAtExit(m, polls, rest, f);
  }

  /**
   * Failed polls that stay below the limit only raise the failure count: the
   * watch goes on from the counters they leave, as if they had not been read.
   */
  lemma {:induction false} FailuresOnlyCount(m: Monitor, polls: seq<Option<Progress>>, f: int, n: nat,
                                             after: Monitor, rest: seq<Option<Progress>>)
    requires n <= LeadingFailures(polls) && m.retries + n < MaxRetries
    requires after == m.(retries := m.retries + n) && rest == polls[n..]
    ensures SplitAt(Monitoring(m, polls, f), n, [], after, rest, f)
    decreases n
  {
    if n == 0 {
      assert after == m && rest == polls;
    } else {
      var m' := m.(retries := m.retries + 1);
      assert Step(m, polls[0], f) == Continue(m', None);
      MonitoringFirst(m, polls, f);
      FailuresOnlyCount(m', polls[1..], f, n - 1, after, rest);
      var r, r', tail := Monitoring(m, polls, f), Monitoring(m', polls[1..], f), Monitoring(after, rest, f);
      assert r.snapshots == r'.snapshots == tail.snapshots;
    }
  }

  /** A failure streak broken by a successful poll starts counting again. */
  lemma FailureStreakResets(f: int)
    ensures var p := Some(Progress(Play, 0, 0));
      var r := Monitoring(Start(f), [None, None, None, None, p, None, None, None, None], f);
      r.exit == OutOfPolls && r.final.retries == 4
  {
    var p := Some(Progress(Play, 0, 0));
    var polls := [None, None, None, None, p, None, None, None, None];
    var whole, tail := Monitoring(Start(f), polls, f), polls[5..];
    FailuresOnlyCount(Start(f), polls, f, 4, Monitor(0, f, 4), polls[4..]);
    assert polls[4..][1..] == tail;
    ContinueCycle(whole, 4, [], Monitor(0, f, 4), polls[4..], f, Start(f), None);
    FailuresOnlyCount(Start(f), tail, f, 4, Monitor(0, f, 4), []);
  }

  /** Answers 5, 12, 12, 25, 100 (playing, except one pause at 12), then stop. */
  const TenPercentPolls: seq<Option<Progress>> :=
    [Some(Progress(Play, 1, 5)), Some(Progress(Play, 2, 12)), Some(Progress(Pause, 3, 12)),
     Some(Progress(Play, 4, 25)), Some(Progress(Play, 5, 100)), Some(Progress(Stop, 6, 100))]

  /** The first three answers of `TenPercentPolls` take one report, at 12. */
  lemma TenPercentOpening()
    ensures SplitAt(Monitoring(Start(10), TenPercentPolls, 10), 3, [12], Monitor(12, 20, 0), TenPercentPolls[3..], 10)
  {
    var polls := TenPercentPolls;
    var whole := Monitoring(Start(10), polls, 10);
    var none: seq<int> := [];
    assert SplitAt(whole, 0, none, Start(10), polls, 10);
    ContinueCycle(whole, 0, none, Start(10), polls, 10, Monitor(5, 10, 0), None);
    ContinueCycle(whole, 1, none, Monitor(5, 10, 0), polls[1..], 10, Monitor(12, 20, 0), Some(12));
    ContinueCycle(whole, 2, none + [12], Monitor(12, 20, 0), polls[1..][1..], 10, Monitor(12, 20, 0), None);
    assert polls[1..][1..][1..] == polls[3..] && none + [12] == [12];
  }

  /**
   * With frequency 10 and `TenPercentPolls`, reports are taken at 12 and 25
   * only, and the watch stops after six answers.
   */
  lemma ScenarioEveryTenPercent()
    ensures var r := Monitoring(Start(10), TenPercentPolls, 10);
      r.exit == Stopped && r.snapshots == [12, 25] && r.consumed == 6 && r.final == Monitor(100, 30, 0)
  {
    var polls := TenPercentPolls;
    var whole, q := Monitoring(Start(10), polls, 10), polls[3..];
    TenPercentOpening();
    ContinueCycle(whole, 3, [12], Monitor(12, 20, 0), q, 10, Monitor(25, 30, 0), Some(25));
    ContinueCycle(whole, 4, [12] + [25], Monitor(25, 30, 0), q[1..], 10, Monitor(100, 30, 0), None);
    HaltCycle(whole, 5, [12] + [25], Monitor(100, 30, 0), q[1..][1..], 10, Stopped, Monitor(100, 30, 0));
  }

  /** Statuses other than play, pause and stop leave every counter but the failure count alone. */
  lemma {:induction false} IdleAnswersChangeNothing(m: Monitor, polls: seq<Option<Progress>>, f: int)
    requires forall j :: 0 <= j < |polls| ==> polls[j].Some? && polls[j].value.status in {Idle, Load, Next}
    ensures Monitoring(m, polls, f) == Run(OutOfPolls, [], |polls|, if polls == [] then m else m.(retries := 0))
    decreases |polls|
  {
    if polls != [] {
      IdleAnswersChangeNothing(m.(retries := 0), polls[1..], f);
    }
  }
}
