/** Pause intervals of one interface: the analyzer with a pause state, and the older one that matches every pause. */
module Pfc {
  import opened Options

  datatype Event = Event(time: int, kind: int)
  datatype Interval = Interval(pause: int, resume: int, lastPause: int)

  const PAUSE := 1
  const RESUME := 0

  function Min(a: int, b: int): int {
    if b < a then b else a
  }

  ghost predicate Sorted(g: seq<Event>) {
    forall i, j :: 0 <= i < j < |g| ==> g[i].time <= g[j].time
  }

  ghost predicate UpTo(g: seq<Event>, maxTime: int) {
    forall i :: 0 <= i < |g| ==> g[i].time <= maxTime
  }

  // ----- the scan

  /** The pause in progress: when it began and when it was last renewed. */
  datatype Pausing = Pausing(start: int, last: int)

  datatype Scan = Scan(done: seq<Interval>, open: Option<Pausing>)

  function Step(s: Scan, e: Event): Scan {
    if e.kind == PAUSE then
      s.(open := Some(Pausing(if s.open.Some? then s.open.value.start else e.time, e.time)))
    else if e.kind == RESUME && s.open.Some? then
      Scan(s.done + [Interval(s.open.value.start, e.time, s.open.value.last)], None)
    else s
  }

  function ScanAll(g: seq<Event>): Scan {
    if g == [] then Scan([], None) else Step(ScanAll(g[..|g| - 1]), g[|g| - 1])
  }

  function Finish(s: Scan, maxTime: int, defaultPause: int): seq<Interval> {
    if s.open.None? then s.done
    else s.done + [Interval(s.open.value.start, Min(s.open.value.last + defaultPause, maxTime), s.open.value.last)]
  }

  function Intervals(g: seq<Event>, maxTime: int, defaultPause: int): seq<Interval> {
    Finish(ScanAll(g), maxTime, defaultPause)
  }

  method AnalyzeGroup(g: seq<Event>, maxTime: int, defaultPause: int) returns (pfcEvents: seq<Interval>)
    ensures pfcEvents == Intervals(g, maxTime, defaultPause)
  {
    pfcEvents := [];
    var isPaused, currentPauseStart, lastPauseTime := false, 0, 0;
    for i := 0 to |g|
      invariant pfcEvents == ScanAll(g[..i]).done && isPaused == ScanAll(g[..i]).open.Some?
      invariant isPaused ==> ScanAll(g[..i]).open.value == Pausing(currentPauseStart, lastPauseTime)
    {
      assert g[..i + 1][..i] == g[..i];
      if g[i].kind == PAUSE {
        if !isPaused {
          isPaused := true;
          currentPauseStart := g[i].time;
        }
        lastPauseTime := g[i].time;
      } else if g[i].kind == RESUME {
        if isPaused {
          isPaused := false;
          pfcEvents := pfcEvents + [Interval(currentPauseStart, g[i].time, lastPauseTime)];
        }
      }
    }
    assert g[..|g|] == g;
    if isPaused {
      pfcEvents := pfcEvents + [Interval(currentPauseStart, Min(lastPauseTime + defaultPause, maxTime), lastPauseTime)];
    }
  }

  // ----- order and coverage

  ghost predicate Ordered(s: seq<Interval>) {
    && (forall i :: 0 <= i < |s| ==> s[i].pause <= s[i].lastPause <= s[i].resume)
    && (forall i, j :: 0 <= i < j < |s| ==> s[i].resume <= s[j].pause)
  }

  ghost predicate Covers(s: seq<Interval>, t: int) {
    exists i :: 0 <= i < |s| && s[i].pause <= t < s[i].resume
  }

  /** Is the interface paused once all of `g` has happened? The latest pause or resume decides. */
  predicate Paused(g: seq<Event>) {
    if g == [] then false
    else var e := g[|g| - 1];
         if e.kind == PAUSE then true else if e.kind == RESUME then false else Paused(g[..|g| - 1])
  }

  /** The events up to time `t`. */
  function Before(g: seq<Event>, t: int): seq<Event> {
    if g == [] then [] else if g[|g| - 1].time <= t then g else Before(g[..|g| - 1], t)
  }

  predicate PausedAt(g: seq<Event>, t: int) {
    Paused(Before(g, t))
  }

  predicate ResumesAfter(g: seq<Event>, t: int) {
    exists i :: 0 <= i < |g| && g[i].kind == RESUME && g[i].time > t
  }

  /** The time of the last pause, if there is one. */
  function LastPause(g: seq<Event>): int {
    if g == [] then 0 else if g[|g| - 1].kind == PAUSE then g[|g| - 1].time else LastPause(g[..|g| - 1])
  }

  lemma {:induction false} ScanOrder(g: seq<Event>, maxTime: int)
    requires Sorted(g) && UpTo(g, maxTime)
    ensures var s := ScanAll(g);
      && Ordered(s.done) && (s.open.Some? <==> Paused(g))
      && (s.open.Some? ==> s.open.value.start <= s.open.value.last <= maxTime && s.open.value.last == LastPause(g)
                           && forall i :: 0 <= i < |s.done| ==> s.done[i].resume <= s.open.value.start)
      && (forall i :: 0 <= i < |s.done| ==> s.done[i].resume <= maxTime)
    decreases |g|
  {
    if g != [] { ScanOrder(g[..|g| - 1], g[|g| - 1].time); }
  }

  /** The intervals are in order, do not overlap, have no negative length and end within the log. */
  lemma IntervalsOrdered(g: seq<Event>, maxTime: int, defaultPause: int)
    requires Sorted(g) && UpTo(g, maxTime) && defaultPause >= 0
    ensures var s := Intervals(g, maxTime, defaultPause);
      Ordered(s) && forall i :: 0 <= i < |s| ==> s[i].resume <= maxTime
  {
    ScanOrder(g, maxTime);
  }

  /** While the scan runs, finished intervals and the open one cover exactly the paused times. */
  lemma {:induction false} ScanCovers(g: seq<Event>, t: int)
    requires Sorted(g)
    ensures var s := ScanAll(g);
      Covers(s.done, t) || (s.open.Some? && s.open.value.start <= t) <==> PausedAt(g, t)
    decreases |g|
  {
    if g != [] {
      var init, e := g[..|g| - 1], g[|g| - 1];
      var s, s' := ScanAll(init), ScanAll(g);
      ScanCovers(init, t);
      ScanOrder(init, e.time);
      ScanOrder(g, e.time);
      hide Covers;
      if s'.done != s.done { CoversSnoc(s.done, s'.done[|s.done|], t); }
    }
  }

  lemma CoversSnoc(s: seq<Interval>, iv: Interval, t: int)
    ensures Covers(s + [iv], t) <==> Covers(s, t) || iv.pause <= t < iv.resume
  {
    var s' := s + [iv];
    if i :| 0 <= i < |s| && s[i].pause <= t < s[i].resume {
      assert s'[i].pause <= t < s'[i].resume;
    }
    assert s'[|s|] == iv;
  }

  predicate IsResume(g: seq<Event>, t: int) {
    exists i :: 0 <= i < |g| && g[i].kind == RESUME && g[i].time == t
  }

  lemma ResumeStays(g: seq<Event>, t: int)
    requires g != [] && IsResume(g[..|g| - 1], t)
    ensures IsResume(g, t)
  {
    var init := g[..|g| - 1];
    var j :| 0 <= j < |init| && init[j].kind == RESUME && init[j].time == t;
    assert g[j] == init[j];
  }

  /** Finished intervals end at resumes; no resume comes after the start of the open one. */
  lemma {:induction false} ScanResumes(g: seq<Event>)
    requires Sorted(g)
    ensures forall i :: 0 <= i < |ScanAll(g).done| ==> IsResume(g, ScanAll(g).done[i].resume)
    ensures ScanAll(g).open.Some? ==> !ResumesAfter(g, ScanAll(g).open.value.start)
    decreases |g|
  {
    if g != [] {
      var init, e := g[..|g| - 1], g[|g| - 1];
      ScanResumes(init);
      ScanOrder(init, e.time);
      var s, s' := ScanAll(init), ScanAll(g);
      forall i | 0 <= i < |s'.done| ensures IsResume(g, s'.done[i].resume) {
        if i < |s.done| {
          assert IsResume(init, s.done[i].resume);
          ResumeStays(g, s.done[i].resume);
        } else {
          assert g[|g| - 1].kind == RESUME;
        }
      }
      if s'.open.Some? {
        forall j | 0 <= j < |g| && g[j].kind == RESUME ensures g[j].time <= s'.open.value.start {
          if j < |init| { assert init[j] == g[j]; }
        }
      }
    }
  }

  /** A time is inside some interval exactly if the latest event then was a pause, and either a resume is
      still to come or the default pause after the last one has not run out. */
  lemma IntervalsCover(g: seq<Event>, maxTime: int, defaultPause: int, t: int)
    requires Sorted(g) && UpTo(g, maxTime)
    ensures Covers(Intervals(g, maxTime, defaultPause), t)
      <==> PausedAt(g, t) && (ResumesAfter(g, t) || t < Min(LastPause(g) + defaultPause, maxTime))
  {
    var s, out := ScanAll(g), Intervals(g, maxTime, defaultPause);
    ScanOrder(g, maxTime);
    ScanResumes(g);
    ScanCovers(g, t);
    assert out[..|s.done|] == s.done;
    if i :| 0 <= i < |s.done| && s.done[i].pause <= t < s.done[i].resume {
      assert out[i] == s.done[i] && IsResume(g, s.done[i].resume);
      var j :| 0 <= j < |g| && g[j].kind == RESUME && g[j].time == s.done[i].resume;
      assert ResumesAfter(g, t);
    }
    if s.open.Some? {
      var last := out[|s.done|];
      assert last.pause <= t < last.resume ==> Covers(out, t);
    }
    if i :| 0 <= i < |out| && out[i].pause <= t < out[i].resume {
      if i < |s.done| { assert s.done[i] == out[i]; }
    }
  }

  /** The time kept for a pause in progress is that of the last pause in the log. */
  lemma {:induction false} LastPauseIsLast(g: seq<Event>)
    requires Sorted(g) && exists i :: 0 <= i < |g| && g[i].kind == PAUSE
    ensures exists i :: 0 <= i < |g| && g[i].kind == PAUSE && g[i].time == LastPause(g)
    ensures forall i :: 0 <= i < |g| && g[i].kind == PAUSE ==> g[i].time <= LastPause(g)
    decreases |g|
  {
    var init := g[..|g| - 1];
    if g[|g| - 1].kind != PAUSE {
      var i :| 0 <= i < |g| && g[i].kind == PAUSE;
      assert init[i].kind == PAUSE;
      LastPauseIsLast(init);
      var j :| 0 <= j < |init| && init[j].kind == PAUSE && init[j].time == LastPause(init);
      assert g[j] == init[j];
      forall k | 0 <= k < |g| && g[k].kind == PAUSE ensures g[k].time <= LastPause(g) { assert init[k] == g[k]; }
    }
  }

  ghost predicate PausedBetween(g: seq<Event>, a: int, b: int) {
    exists i :: 0 <= i < |g| && g[i].kind == PAUSE && a < g[i].time < b
  }

  lemma OpenLastIs(g: seq<Event>)
    requires Sorted(g) && ScanAll(g).open.Some?
    ensures var p := ScanAll(g).open.value; p.start <= p.last && IsPause(g, p.last) && forall i :: 0 <= i < |g| && g[i].kind == PAUSE ==> g[i].time <= p.last
  {
    PausesAreEvents(g);
    ScanOrder(g, g[|g| - 1].time);
    hide ScanAll, LastPause, Sorted, Ordered;
    LastPauseIsLast(g);
  }

  lemma StillLatest(g: seq<Event>, iv: Interval)
    requires Strict(g) && g != [] && iv.resume <= g[|g| - 1].time
    requires IsPause(g[..|g| - 1], iv.lastPause) && !PausedBetween(g[..|g| - 1], iv.lastPause, iv.resume)
    ensures IsPause(g, iv.lastPause) && !PausedBetween(g, iv.lastPause, iv.resume)
  {
    var init := g[..|g| - 1];
    var j :| 0 <= j < |init| && init[j].kind == PAUSE && init[j].time == iv.lastPause;
    assert g[j] == init[j];
    forall i | 0 <= i < |g| && g[i].kind == PAUSE ensures !(iv.lastPause < g[i].time < iv.resume) {
      if i < |init| { assert init[i] == g[i]; }
    }
  }

  /** The last pause of a finished interval is the latest one before its resume. */
  lemma {:induction false} LatestRenewal(g: seq<Event>, k: nat)
    requires Strict(g) && k < |ScanAll(g).done|
    ensures var iv := ScanAll(g).done[k];
      iv.pause <= iv.lastPause && IsPause(g, iv.lastPause) && !PausedBetween(g, iv.lastPause, iv.resume)
    decreases |g|
  {
    var init, e := g[..|g| - 1], g[|g| - 1];
    var s, iv := ScanAll(init), ScanAll(g).done[k];
    assert Strict(init) && forall i :: 0 <= i < |init| ==> init[i].time < e.time;
    if k < |s.done| {
      assert iv == s.done[k];
      hide ScanAll, PausedBetween, IsPause;
      LatestRenewal(init, k);
      DoneBefore(init, k, e.time);
      StillLatest(g, iv);
    } else {
      assert s.open.Some? && iv == Interval(s.open.value.start, e.time, s.open.value.last);
      hide ScanAll, IsPause;
      OpenLastIs(init);
      StillLatest(g, iv);
    }
  }

  // ----- totals

  function Total(s: seq<Interval>): int {
    if s == [] then 0 else Total(s[..|s| - 1]) + (s[|s| - 1].resume - s[|s| - 1].pause)
  }

  lemma {:induction false} TotalBound(s: seq<Interval>, from: int, to: int)
    requires Ordered(s) && from <= to
    requires forall i :: 0 <= i < |s| ==> from <= s[i].pause && s[i].resume <= to
    ensures 0 <= Total(s) <= to - from
    decreases |s|
  {
    if s != [] {
      var last := s[|s| - 1];
      TotalBound(s[..|s| - 1], from, last.pause);
    }
  }

  /** All pauses together last no longer than from the first pause to the end of the log. */
  lemma TotalWithinLog(g: seq<Event>, maxTime: int, defaultPause: int, first: int)
    requires Sorted(g) && UpTo(g, maxTime) && defaultPause >= 0 && first <= maxTime
    requires forall i :: 0 <= i < |g| && g[i].kind == PAUSE ==> first <= g[i].time
    ensures 0 <= Total(Intervals(g, maxTime, defaultPause)) <= maxTime - first
  {
    var s := Intervals(g, maxTime, defaultPause);
    IntervalsOrdered(g, maxTime, defaultPause);
    PausesAreEvents(g);
    forall i | 0 <= i < |s| ensures first <= s[i].pause {
      if i < |ScanAll(g).done| { assert s[i] == ScanAll(g).done[i]; }
    }
    TotalBound(s, first, maxTime);
  }

  predicate IsPause(g: seq<Event>, t: int) {
    exists i :: 0 <= i < |g| && g[i].kind == PAUSE && g[i].time == t
  }

  lemma {:induction false} PausesAreEvents(g: seq<Event>)
    ensures forall i :: 0 <= i < |ScanAll(g).done| ==> IsPause(g, ScanAll(g).done[i].pause)
    ensures ScanAll(g).open.Some? ==> IsPause(g, ScanAll(g).open.value.start)
    decreases |g|
  {
    if g != [] {
      var init := g[..|g| - 1];
      PausesAreEvents(init);
      forall t | IsPause(init, t) ensures IsPause(g, t) {
        var i :| 0 <= i < |init| && init[i].kind == PAUSE && init[i].time == t;
        assert g[i] == init[i];
      }
      assert g[|g| - 1].kind == PAUSE ==> IsPause(g, g[|g| - 1].time);
    }
  }

  // ----- the older analyzer

  /** The earliest resume after time `t`. */
  function NextResume(g: seq<Event>, t: int): Option<int> {
    if g == [] then None
    else var r, e := NextResume(g[..|g| - 1], t), g[|g| - 1];
         if e.kind == RESUME && e.time > t then Some(if r.Some? then Min(r.value, e.time) else e.time) else r
  }

  lemma {:induction false} NextResumeIsEarliest(g: seq<Event>, t: int)
    ensures NextResume(g, t).None? ==> !ResumesAfter(g, t)
    ensures NextResume(g, t).Some? ==> NextResume(g, t).value > t && IsResume(g, NextResume(g, t).value)
    ensures NextResume(g, t).Some? ==> forall i :: 0 <= i < |g| && g[i].kind == RESUME && g[i].time > t ==> NextResume(g, t).value <= g[i].time
    decreases |g|
  {
    if g != [] {
      var init, e := g[..|g| - 1], g[|g| - 1];
      NextResumeIsEarliest(init, t);
      forall i | 0 <= i < |init| ensures g[i] == init[i] {
      }
      if NextResume(init, t).Some? {
        var j :| 0 <= j < |init| && init[j].kind == RESUME && init[j].time == NextResume(init, t).value;
        assert IsResume(g, g[j].time);
      }
      if e.kind == RESUME { assert IsResume(g, g[|g| - 1].time); }
    }
  }

  function PauseTimes(g: seq<Event>): seq<int> {
    if g == [] then [] else PauseTimes(g[..|g| - 1]) + (if g[|g| - 1].kind == PAUSE then [g[|g| - 1].time] else [])
  }

  function Match(g: seq<Event>, t: int, maxTime: int, defaultPause: int): Interval {
    match NextResume(g, t)
    case Some(r) => Interval(t, r, t)
    case None => Interval(t, Min(t + defaultPause, maxTime), t)
  }

  function MatchAll(g: seq<Event>, ts: seq<int>, maxTime: int, defaultPause: int): seq<Interval> {
    if ts == [] then []
    else MatchAll(g, ts[..|ts| - 1], maxTime, defaultPause) + [Match(g, ts[|ts| - 1], maxTime, defaultPause)]
  }

  lemma MatchSnoc(g: seq<Event>, ts: seq<int>, t: int, maxTime: int, defaultPause: int)
    ensures MatchAll(g, ts + [t], maxTime, defaultPause)
         == MatchAll(g, ts, maxTime, defaultPause) + [Match(g, t, maxTime, defaultPause)]
  {
    assert (ts + [t])[..|ts + [t]| - 1] == ts;
  }

  /** `matching_resumes['time_step'].min()`, if any resume matches. */
  method FindResume(g: seq<Event>, t: int) returns (r: Option<int>)
    ensures r == NextResume(g, t)
  {
    r := None;
    for j := 0 to |g|
      invariant r == NextResume(g[..j], t)
    {
      assert g[..j + 1][..j] == g[..j];
      if g[j].kind == RESUME && g[j].time > t {
        r := Some(if r.Some? then Min(r.value, g[j].time) else g[j].time);
      }
    }
    assert g[..|g|] == g;
  }

  /** Every pause on its own, matched with the next resume. */
  method AnalyzeGroupOld(g: seq<Event>, maxTime: int, defaultPause: int) returns (pfcEvents: seq<Interval>)
    ensures pfcEvents == MatchAll(g, PauseTimes(g), maxTime, defaultPause)
  {
    hide *;
    pfcEvents := [];
    NoPauses(g, maxTime, defaultPause);
    for i := 0 to |g|
      invariant pfcEvents == MatchAll(g, PauseTimes(g[..i]), maxTime, defaultPause)
    {
      PausesSnoc(g, i);
      if g[i].kind == PAUSE {
        var pauseTime := g[i].time;
        var nextResume := FindResume(g, pauseTime);
        var resume := if nextResume.Some? then nextResume.value else Min(pauseTime + defaultPause, maxTime);
        MatchSnoc(g, PauseTimes(g[..i]), pauseTime, maxTime, defaultPause);
        MatchIs(g, pauseTime, maxTime, defaultPause);
        pfcEvents := pfcEvents + [Interval(pauseTime, resume, pauseTime)];
      }
    }
    assert g[..|g|] == g;
  }

  lemma MatchIs(g: seq<Event>, t: int, maxTime: int, defaultPause: int)
    ensures Match(g, t, maxTime, defaultPause)
         == Interval(t, if NextResume(g, t).Some? then NextResume(g, t).value else Min(t + defaultPause, maxTime), t)
  {
    hide NextResume, Min;
  }

  lemma NoPauses(g: seq<Event>, maxTime: int, defaultPause: int)
    ensures MatchAll(g, PauseTimes(g[..0]), maxTime, defaultPause) == []
  {
  }

  lemma PausesSnoc(g: seq<Event>, i: nat)
    requires i < |g|
    ensures PauseTimes(g[..i + 1]) == if g[i].kind == PAUSE then PauseTimes(g[..i]) + [g[i].time] else PauseTimes(g[..i])
  {
    assert g[..i + 1][..i] == g[..i] && PauseTimes(g[..i]) + [] == PauseTimes(g[..i]);
  }

  // ----- the two compared

  ghost predicate Strict(g: seq<Event>) {
    forall i, j :: 0 <= i < j < |g| ==> g[i].time < g[j].time
  }

  /** Old-style events resolved so far, and the pauses still waiting for a resume. */
  datatype OldScan = OldScan(done: seq<Interval>, pending: seq<int>)

  function Resolve(ts: seq<int>, r: int): seq<Interval> {
    if ts == [] then [] else Resolve(ts[..|ts| - 1], r) + [Interval(ts[|ts| - 1], r, ts[|ts| - 1])]
  }

  function OldScanAll(g: seq<Event>): OldScan {
    if g == [] then OldScan([], [])
    else var s, e := OldScanAll(g[..|g| - 1]), g[|g| - 1];
         if e.kind == PAUSE then OldScan(s.done, s.pending + [e.time])
         else if e.kind == RESUME then OldScan(s.done + Resolve(s.pending, e.time), [])
         else s
  }

  lemma {:induction false} ResolveAt(ts: seq<int>, r: int)
    ensures |Resolve(ts, r)| == |ts|
    ensures forall i :: 0 <= i < |ts| ==> Resolve(ts, r)[i] == Interval(ts[i], r, ts[i])
    decreases |ts|
  {
    if ts != [] { ResolveAt(ts[..|ts| - 1], r); }
  }

  lemma {:induction false} TotalAppend(a: seq<Interval>, b: seq<Interval>)
    ensures Total(a + b) == Total(a) + Total(b)
    decreases |b|
  {
    if b == [] {
      assert a + b == a;
    } else {
      TotalAppend(a, b[..|b| - 1]);
      assert (a + b)[..|a + b| - 1] == a + b[..|b| - 1];
    }
  }

  /** How long the renewals of pauses that were resumed, each on its own, lasted. */
  function Renewed(g: seq<Event>): int {
    if g == [] then 0
    else var ts, e := OldScanAll(g[..|g| - 1]).pending, g[|g| - 1];
         Renewed(g[..|g| - 1]) + if e.kind == RESUME && ts != [] then Total(Resolve(ts[1..], e.time)) else 0
  }

  lemma {:induction false} ResolveFirst(ts: seq<int>, r: int)
    requires ts != []
    ensures Total(Resolve(ts, r)) == r - ts[0] + Total(Resolve(ts[1..], r))
    decreases |ts|
  {
    if |ts| > 1 {
      ResolveFirst(ts[..|ts| - 1], r);
      assert ts[1..][..|ts[1..]| - 1] == ts[..|ts| - 1][1..];
    } else {
      assert ts[..0] == [] && ts[1..] == [];
    }
  }

  /** While both scans run, the old one is ahead by the renewals, in number and in total time. */
  lemma {:induction false} NeverMore(g: seq<Event>)
    requires Strict(g)
    ensures var s, o := ScanAll(g), OldScanAll(g);
      && |s.done| <= |o.done| && Total(o.done) == Total(s.done) + Renewed(g)
      && (s.open.Some? <==> o.pending != []) && (s.open.Some? ==> o.pending[0] == s.open.value.start)
      && (forall i :: 0 <= i < |o.pending| ==> g != [] && o.pending[i] <= g[|g| - 1].time)
    decreases |g|
  {
    if g != [] {
      var init, e := g[..|g| - 1], g[|g| - 1];
      NeverMore(init);
      var s, o := ScanAll(init), OldScanAll(init);
      if e.kind == RESUME {
        ResolveAt(o.pending, e.time);
        TotalAppend(o.done, Resolve(o.pending, e.time));
        if s.open.Some? {
          ResolveFirst(o.pending, e.time);
          assert ScanAll(g).done[..|s.done|] == s.done;
        }
      }
    }
  }

  lemma {:induction false} TimesOf(s: seq<Interval>, ts: seq<int>, g: seq<Event>, maxTime: int, defaultPause: int)
    requires |s| == |ts| && forall i :: 0 <= i < |s| ==> s[i].pause == ts[i] == s[i].lastPause
    requires forall i :: 0 <= i < |s| ==> NextResume(g, ts[i]) == Some(s[i].resume)
    ensures MatchAll(g, ts, maxTime, defaultPause) == s
    decreases |s|
  {
    if s != [] { TimesOf(s[..|s| - 1], ts[..|ts| - 1], g, maxTime, defaultPause); }
  }

  function PausesOf(s: seq<Interval>): seq<int> {
    seq(|s|, i requires 0 <= i < |s| => s[i].pause)
  }

  lemma {:induction false} OldScanTimes(g: seq<Event>)
    ensures PauseTimes(g) == PausesOf(OldScanAll(g).done) + OldScanAll(g).pending
    decreases |g|
  {
    if g != [] {
      var e, o := g[|g| - 1], OldScanAll(g[..|g| - 1]);
      OldScanTimes(g[..|g| - 1]);
      if e.kind == RESUME {
        ResolveAt(o.pending, e.time);
        hide Resolve;
        assert PausesOf(Resolve(o.pending, e.time)) == o.pending;
        assert PausesOf(o.done + Resolve(o.pending, e.time)) == PausesOf(o.done) + PausesOf(Resolve(o.pending, e.time));
      }
    }
  }

  ghost predicate OldDone(g: seq<Event>, done: seq<Interval>) {
    forall i :: 0 <= i < |done| ==> NextResume(g, done[i].pause) == Some(done[i].resume) && done[i].lastPause == done[i].pause
                                     && done[i].resume <= g[|g| - 1].time
  }

  ghost predicate OldPending(g: seq<Event>, pending: seq<int>) {
    forall i :: 0 <= i < |pending| ==> NextResume(g, pending[i]) == None && g != [] && pending[i] <= g[|g| - 1].time
  }

  lemma ResolvesPending(g: seq<Event>, done: seq<Interval>, pending: seq<int>)
    requires Strict(g) && g != [] && g[|g| - 1].kind == RESUME
    requires OldDone(g[..|g| - 1], done) && OldPending(g[..|g| - 1], pending)
    requires |g| > 1 || (done == [] && pending == [])
    ensures OldDone(g, done + Resolve(pending, g[|g| - 1].time))
  {
    var e := g[|g| - 1];
    if |g| > 1 { assert g[|g| - 2].time < e.time && g[..|g| - 1][|g| - 2] == g[|g| - 2]; }
    ResolveAt(pending, e.time);
    hide Resolve;
    var all := done + Resolve(pending, e.time);
    assert forall i :: 0 <= i < |all| ==> all[i] == if i < |done| then done[i] else Resolve(pending, e.time)[i - |done|];
  }

  /** The scan finds what the older analyzer finds by searching. */
  lemma {:induction false} OldScanMatches(g: seq<Event>)
    requires Strict(g)
    ensures PauseTimes(g) == PausesOf(OldScanAll(g).done) + OldScanAll(g).pending
    ensures OldDone(g, OldScanAll(g).done) && OldPending(g, OldScanAll(g).pending)
    ensures g == [] ==> OldScanAll(g) == OldScan([], [])
    decreases |g|
  {
    OldScanTimes(g);
    hide PauseTimes, PausesOf;
    if g != [] {
      var init, e := g[..|g| - 1], g[|g| - 1];
      OldScanMatches(init);
      if init != [] { assert g[|g| - 2].time < e.time && init[|init| - 1] == g[|g| - 2]; }
      NoneAfterLast(g);
      if e.kind == RESUME {
        ResolvesPending(g, OldScanAll(init).done, OldScanAll(init).pending);
        assert OldPending(g, []);
        hide OldDone, OldPending, NextResume;
      }
    }
  }

  lemma {:induction false} NoneAfterLast(g: seq<Event>)
    requires Strict(g) && g != []
    ensures NextResume(g, g[|g| - 1].time) == None
  {
    NextResumeIsEarliest(g, g[|g| - 1].time);
  }

  /** What pauses without a resume last in the old analysis, each on its own, ... */
  function OldTail(ts: seq<int>, maxTime: int, defaultPause: int): int {
    if ts == [] then 0
    else var t := ts[|ts| - 1]; OldTail(ts[..|ts| - 1], maxTime, defaultPause) + Min(t + defaultPause, maxTime) - t
  }

  /** ... and in the new one, together. */
  function NewTail(ts: seq<int>, maxTime: int, defaultPause: int): int {
    if ts == [] then 0 else Min(ts[|ts| - 1] + defaultPause, maxTime) - ts[0]
  }

  /** The pauses after the last resume. */
  function Unresumed(g: seq<Event>): seq<int> {
    OldScanAll(g).pending
  }

  lemma {:induction false} MatchAppend(g: seq<Event>, a: seq<int>, b: seq<int>, maxTime: int, defaultPause: int)
    ensures MatchAll(g, a + b, maxTime, defaultPause)
         == MatchAll(g, a, maxTime, defaultPause) + MatchAll(g, b, maxTime, defaultPause)
    decreases |b|
  {
    hide Match;
    if b == [] {
      assert a + b == a;
    } else {
      MatchAppend(g, a, b[..|b| - 1], maxTime, defaultPause);
      assert (a + b)[..|a + b| - 1] == a + b[..|b| - 1];
    }
  }

  lemma {:induction false} MatchPending(g: seq<Event>, ts: seq<int>, maxTime: int, defaultPause: int)
    requires forall i :: 0 <= i < |ts| ==> NextResume(g, ts[i]) == None
    ensures Total(MatchAll(g, ts, maxTime, defaultPause)) == OldTail(ts, maxTime, defaultPause)
    ensures |MatchAll(g, ts, maxTime, defaultPause)| == |ts|
    decreases |ts|
  {
    hide NextResume;
    if ts != [] {
      var m := |ts| - 1;
      MatchPending(g, ts[..m], maxTime, defaultPause);
      TotalSnoc(MatchAll(g, ts[..m], maxTime, defaultPause), Match(g, ts[m], maxTime, defaultPause));
    }
  }

  lemma TotalSnoc(s: seq<Interval>, iv: Interval)
    ensures Total(s + [iv]) == Total(s) + iv.resume - iv.pause
  {
    assert (s + [iv])[..|s|] == s;
  }

  /** The open interval began at the first pause not resumed and was last renewed at the last one. */
  lemma {:induction false} OpenIsPending(g: seq<Event>)
    ensures var s, ts := ScanAll(g), Unresumed(g);
      && (s.open.Some? <==> ts != [])
      && (s.open.Some? ==> s.open.value.start == ts[0] && s.open.value.last == ts[|ts| - 1])
    decreases |g|
  {
    if g != [] { OpenIsPending(g[..|g| - 1]); }
  }

  lemma OldTotal(g: seq<Event>, maxTime: int, defaultPause: int)
    requires Strict(g)
    ensures var o := MatchAll(g, PauseTimes(g), maxTime, defaultPause);
      && |o| == |OldScanAll(g).done| + |Unresumed(g)|
      && Total(o) == Total(OldScanAll(g).done) + OldTail(Unresumed(g), maxTime, defaultPause)
  {
    OldScanMatches(g);
    var o := OldScanAll(g);
    assert forall i :: 0 <= i < |o.pending| ==> NextResume(g, o.pending[i]) == None;
    assert forall i :: 0 <= i < |o.done| ==> o.done[i].pause == PausesOf(o.done)[i] == o.done[i].lastPause;
    assert forall i :: 0 <= i < |o.done| ==> NextResume(g, PausesOf(o.done)[i]) == Some(o.done[i].resume);
    hide OldScanAll, PauseTimes, NextResume, OldDone, OldPending, Strict, OldTail, Total;
    TimesOf(o.done, PausesOf(o.done), g, maxTime, defaultPause);
    MatchPending(g, o.pending, maxTime, defaultPause);
    MatchAppend(g, PausesOf(o.done), o.pending, maxTime, defaultPause);
    TotalAppend(o.done, MatchAll(g, o.pending, maxTime, defaultPause));
  }

  lemma NewTotal(g: seq<Event>, maxTime: int, defaultPause: int)
    ensures var s := Intervals(g, maxTime, defaultPause);
      && |s| == |ScanAll(g).done| + (if Unresumed(g) == [] then 0 else 1)
      && Total(s) == Total(ScanAll(g).done) + NewTail(Unresumed(g), maxTime, defaultPause)
  {
    OpenIsPending(g);
    var s := ScanAll(g);
    hide ScanAll, Unresumed, Total;
    if s.open.Some? {
      TotalSnoc(s.done, Interval(s.open.value.start, Min(s.open.value.last + defaultPause, maxTime), s.open.value.last));
    }
  }

  /** On a log with strictly increasing times merging never gives more intervals. It gives no more time in total if and
      only if joining the pauses that are never resumed gains no more than what the renewals of the others lose. */
  lemma NewNeverExceedsOld(g: seq<Event>, maxTime: int, defaultPause: int)
    requires Strict(g)
    ensures var s, o := Intervals(g, maxTime, defaultPause), MatchAll(g, PauseTimes(g), maxTime, defaultPause);
      && |s| <= |o|
      && (Total(s) <= Total(o)
          <==> NewTail(Unresumed(g), maxTime, defaultPause) <= OldTail(Unresumed(g), maxTime, defaultPause) + Renewed(g))
  {
    NeverMore(g);
    OldTotal(g, maxTime, defaultPause);
    NewTotal(g, maxTime, defaultPause);
    hide *;
  }

  lemma {:induction false} RenewedNotNegative(g: seq<Event>)
    requires Strict(g)
    ensures Renewed(g) >= 0
    decreases |g|
  {
    if g != [] {
      var init, e := g[..|g| - 1], g[|g| - 1];
      RenewedNotNegative(init);
      NeverMore(init);
      var ts := OldScanAll(init).pending;
      if e.kind == RESUME && ts != [] {
        assert init != [] && init[|init| - 1].time < e.time;
        ResolvedTotal(ts[1..], e.time);
      }
    }
  }

  lemma {:induction false} ResolvedTotal(ts: seq<int>, r: int)
    requires forall i :: 0 <= i < |ts| ==> ts[i] <= r
    ensures Total(Resolve(ts, r)) >= 0
    decreases |ts|
  {
    if ts != [] { ResolvedTotal(ts[..|ts| - 1], r); }
  }

  /** In particular if every renewal of the unresumed pause comes before the default pause has run out, and so also if
      every pause is resumed. */
  lemma RenewedInTime(g: seq<Event>, maxTime: int, defaultPause: int)
    requires Strict(g) && UpTo(g, maxTime) && defaultPause >= 0
    requires forall i :: 0 < i < |Unresumed(g)| ==> Unresumed(g)[i] <= Unresumed(g)[i - 1] + defaultPause
    ensures Total(Intervals(g, maxTime, defaultPause)) <= Total(MatchAll(g, PauseTimes(g), maxTime, defaultPause))
  {
    RenewedNotNegative(g);
    NeverMore(g);
    assert forall i :: 0 <= i < |Unresumed(g)| ==> Unresumed(g)[i] <= maxTime;
    TailsInTime(Unresumed(g), maxTime, defaultPause);
    hide *;
    NewNeverExceedsOld(g, maxTime, defaultPause);
  }

  lemma {:induction false} TailsInTime(ts: seq<int>, maxTime: int, defaultPause: int)
    requires defaultPause >= 0 && forall i :: 0 <= i < |ts| ==> ts[i] <= maxTime
    requires forall i :: 0 < i < |ts| ==> ts[i] <= ts[i - 1] + defaultPause
    ensures NewTail(ts, maxTime, defaultPause) <= OldTail(ts, maxTime, defaultPause)
    decreases |ts|
  {
    if |ts| > 1 {
      TailsInTime(ts[..|ts| - 1], maxTime, defaultPause);
    } else if |ts| == 1 {
      assert ts[..0] == [];
    }
  }

  /** A pause (1) at 3, renewed at 5 and resumed (0) at 9: one interval, of two events in the older analysis. */
  lemma RenewedAndResumed(maxTime: int, defaultPause: int)
    ensures var g := [Event(3, 1), Event(5, 1), Event(9, 0)];
      && Intervals(g, maxTime, defaultPause) == [Interval(3, 9, 5)]
      && MatchAll(g, PauseTimes(g), maxTime, defaultPause) == [Interval(3, 9, 3), Interval(5, 9, 5)]
  {
    var a, b, c := Event(3, 1), Event(5, 1), Event(9, 0);
    ScanOne([], a);
    ScanOne([a], b);
    ScanOne([a, b], c);
    assert [] + [a] == [a] && [a] + [b] == [a, b] && [a, b] + [c] == [a, b, c];
    NothingScanned();
    hide ScanAll, MatchAll, Match, PauseTimes, NextResume;
    assert PauseTimes([a, b, c]) == [3, 5];
    TwoMatched([a, b, c], maxTime, defaultPause);
  }

  lemma TwoMatched(g: seq<Event>, maxTime: int, defaultPause: int)
    requires NextResume(g, 3) == Some(9) && NextResume(g, 5) == Some(9)
    ensures MatchAll(g, [3, 5], maxTime, defaultPause) == [Interval(3, 9, 3), Interval(5, 9, 5)]
  {
    assert [3, 5] == [] + [3] + [5];
    MatchSnoc(g, [] + [3], 5, maxTime, defaultPause);
    MatchSnoc(g, [], 3, maxTime, defaultPause);
    hide NextResume;
  }

  lemma ScanOne(g: seq<Event>, e: Event)
    ensures ScanAll(g + [e]) == Step(ScanAll(g), e)
    ensures PauseTimes(g + [e]) == PauseTimes(g) + (if e.kind == 1 then [e.time] else [])
    ensures forall t :: e.kind == 0 && e.time > t && NextResume(g, t).None? ==> NextResume(g + [e], t) == Some(e.time)
    ensures forall t :: e.kind != 0 ==> NextResume(g + [e], t) == NextResume(g, t)
    ensures PauseTimes([]) == [] && forall t :: NextResume([], t) == None
  {
    assert (g + [e])[..|g|] == g;
  }

  /** Two pauses far apart, never resumed: the new analysis counts the time between them too. */
  lemma LateRenewal()
    ensures var g := [Event(0, 1), Event(10000, 1)];
      && Strict(g)
      && Total(Intervals(g, 20000, 5000)) == 15000
      && Total(MatchAll(g, PauseTimes(g), 20000, 5000)) == 10000
  {
    var e, f := Event(0, PAUSE), Event(10000, PAUSE);
    assert Strict([e, f]);
    hide *;
    LateScan(e, f);
    LateTails();
    OldTotal([e, f], 20000, 5000);
    NewTotal([e, f], 20000, 5000);
  }

  lemma LateScan(e: Event, f: Event)
    requires e == Event(0, PAUSE) && f == Event(10000, PAUSE)
    ensures Total(ScanAll([e, f]).done) == 0 && Total(OldScanAll([e, f]).done) == 0 && Unresumed([e, f]) == [0, 10000]
  {
    PausesScanned([], e);
    PausesScanned([] + [e], f);
    NothingScanned();
    hide ScanAll, OldScanAll;
    assert [] + [e] + [f] == [e, f] && [] + [0] + [10000] == [0, 10000];
  }

  lemma LateTails()
    ensures OldTail([0, 10000], 20000, 5000) == 10000 && NewTail([0, 10000], 20000, 5000) == 15000
  {
    assert [0, 10000][..1] == [0] && [0][..0] == [];
    assert OldTail([0], 20000, 5000) == 5000;
  }

  lemma NothingScanned()
    ensures ScanAll([]) == Scan([], None) && OldScanAll([]) == OldScan([], [])
  {
  }

  lemma PausesScanned(g: seq<Event>, e: Event)
    requires e.kind == PAUSE
    ensures ScanAll(g + [e]).done == ScanAll(g).done
    ensures OldScanAll(g + [e]) == OldScan(OldScanAll(g).done, OldScanAll(g).pending + [e.time])
  {
    assert (g + [e])[..|g|] == g;
  }

  /** Pauses that are all resumed leave nothing at the end. */
  lemma AllResumed(g: seq<Event>)
    requires Strict(g) && forall i :: 0 <= i < |g| && g[i].kind == PAUSE ==> ResumesAfter(g, g[i].time)
    ensures Unresumed(g) == []
  {
    OldScanMatches(g);
    if Unresumed(g) != [] {
      PendingIsPause(g);
      var t := OldScanAll(g).pending[0];
      var i :| 0 <= i < |g| && g[i].kind == PAUSE && g[i].time == t;
      NextResumeIsEarliest(g, t);
    }
  }

  lemma {:induction false} PendingIsPause(g: seq<Event>)
    ensures forall i :: 0 <= i < |OldScanAll(g).pending| ==> IsPause(g, OldScanAll(g).pending[i])
    decreases |g|
  {
    if g != [] {
      var init := g[..|g| - 1];
      PendingIsPause(init);
      forall t | IsPause(init, t) ensures IsPause(g, t) {
        var i :| 0 <= i < |init| && init[i].kind == PAUSE && init[i].time == t;
        assert g[i] == init[i];
      }
      assert g[|g| - 1].kind == PAUSE ==> IsPause(g, g[|g| - 1].time);
    }
  }

  /** A pause before the open one, and any pause if none is open, was resumed. */
  lemma {:induction false} EarlierPausesResumed(g: seq<Event>, i: nat)
    requires Strict(g) && i < |g| && g[i].kind == PAUSE
    requires ScanAll(g).open.Some? ==> g[i].time < ScanAll(g).open.value.start
    ensures ResumesAfter(g, g[i].time)
    decreases |g|
  {
    var init, e := g[..|g| - 1], g[|g| - 1];
    if i < |init| {
      assert init[i] == g[i];
      if e.kind == RESUME {
        assert g[|g| - 1].time > g[i].time;
      } else {
        EarlierPausesResumed(init, i);
        var j :| 0 <= j < |init| && init[j].kind == RESUME && init[j].time > g[i].time;
        assert g[j] == init[j];
      }
    } else {
      ScanOrder(g, e.time);
    }
  }

  /** Each interval is the longest of the old-style events that end at the same resume. */
  lemma {:induction false} LongestOldEvent(g: seq<Event>, k: nat)
    requires Strict(g) && k < |ScanAll(g).done|
    ensures var iv := ScanAll(g).done[k];
      && IsPause(g, iv.pause) && NextResume(g, iv.pause) == Some(iv.resume)
      && forall i :: 0 <= i < |g| && g[i].kind == PAUSE && NextResume(g, g[i].time) == Some(iv.resume) ==> iv.pause <= g[i].time
    decreases |g|
  {
    var init, e := g[..|g| - 1], g[|g| - 1];
    var s, iv := ScanAll(init), ScanAll(g).done[k];
    PausesAreEvents(g);
    ScanOrder(init, e.time);
    NoneAfterLast(g);
    forall i | 0 <= i < |init| ensures init[i] == g[i] {
    }
    if k < |s.done| {
      LongestOldEvent(init, k);
      DoneBefore(init, k, e.time);
    } else {
      ScanResumes(init);
      NextResumeIsEarliest(init, iv.pause);
      forall i | 0 <= i < |g| && g[i].kind == PAUSE && g[i].time < iv.pause ensures NextResume(g, g[i].time) != Some(iv.resume) {
        EarlierEndsEarlier(g, i);
      }
    }
  }

  /** A pause before the open interval was over before the last event. */
  lemma EarlierEndsEarlier(g: seq<Event>, i: nat)
    requires Strict(g) && i < |g| - 1 && g[i].kind == PAUSE
    requires ScanAll(g[..|g| - 1]).open.Some? ==> g[i].time < ScanAll(g[..|g| - 1]).open.value.start
    ensures NextResume(g, g[i].time).Some? && NextResume(g, g[i].time).value < g[|g| - 1].time
  {
    var init, e := g[..|g| - 1], g[|g| - 1];
    hide NextResume, ScanAll, ResumesAfter, IsResume;
    assert init[i] == g[i];
    EarlierPausesResumed(init, i);
    NextResumeIsEarliest(init, g[i].time);
    ResumeBefore(init, g[i].time, e.time);
  }

  lemma ResumeBefore(g: seq<Event>, t: int, end: int)
    requires NextResume(g, t).Some? && forall i :: 0 <= i < |g| ==> g[i].time < end
    ensures NextResume(g, t).value < end
  {
    NextResumeIsEarliest(g, t);
    var i :| 0 <= i < |g| && g[i].kind == RESUME && g[i].time == NextResume(g, t).value;
  }

  lemma DoneBefore(g: seq<Event>, k: nat, end: int)
    requires Strict(g) && k < |ScanAll(g).done| && forall i :: 0 <= i < |g| ==> g[i].time < end
    ensures ScanAll(g).done[k].resume < end
  {
    ScanResumes(g);
    var i :| 0 <= i < |g| && g[i].kind == RESUME && g[i].time == ScanAll(g).done[k].resume;
  }
}
