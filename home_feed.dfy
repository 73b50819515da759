/** The post-harvesting loop of `HomeFeed.browse` (feedscraper/feed.py).

    The session's lookup of the post at a 1-based position (`post_el` followed
    by `Post.from_home_element`) is a probe oracle: a script of found/not-found
    answers consumed one entry per probe, every probe past its end answering
    not-found. Each probe is recorded with the position it asked for, so a
    harvest is the positions it yielded, the probes it made and the final
    values of its counters. */
module HomeFeed {

  /** `scroll_fail_count` bound of the outer loop. */
  const ScrollFailLimit: nat := 10
  /** `load_fail_count` bound of the inner loop. */
  const LoadFailLimit: nat := 10

  /** The answer to the probe with 0-based number `k`. */
  predicate Found(script: seq<bool>, k: nat)
  {
    k < |script| && script[k]
  }

  /** No probe numbered in [from, to) finds its post. */
  predicate NoneFound(script: seq<bool>, from: nat, to: nat)
  {
    forall k: nat :: from <= k < to ==> !Found(script, k)
  }

  /** Loop state of `browse`: the position `i`, `scroll_fail_count`,
      `load_fail_count` (unbound until the first failure in the source, 0
      here), the position asked for by every probe so far, the positions
      yielded and the number of scrolls to the bottom. */
  datatype State = State(pos: nat, scrollFails: nat, loadFails: nat,
                         trace: seq<nat>, yielded: seq<nat>, scrolls: nat)

  /** The state on entering the outer loop. */
  function Start(): State
  {
    State(1, 0, 0, [], [], 0)
  }

  function Repeat(x: nat, n: nat): seq<nat>
  {
    seq(n, _ => x)
  }

  /** Outcome of the inner loop: whether a re-probe found the post, and how
      many re-probes it made. */
  datatype Retried = Retried(found: bool, probes: nat)

  /** The inner loop entered with `load_fail_count == loadFails`, its next
      probe being number `next`: it stops at the first probe that finds the
      post, or after the probes that take `load_fail_count` to its limit. */
  function Retry(script: seq<bool>, next: nat, loadFails: nat): (r: Retried)
    requires loadFails <= LoadFailLimit
    ensures r.probes <= LoadFailLimit - loadFails
    ensures !r.found ==> r.probes == LoadFailLimit - loadFails
    decreases LoadFailLimit - loadFails
  {
    if loadFails == LoadFailLimit then Retried(false, 0)
    else if Found(script, next) then Retried(true, 1)
    else
      var r := Retry(script, next + 1, loadFails + 1);
      Retried(r.found, r.probes + 1)
  }

  /** The inner loop breaks on the first probe that finds the post, and gives
      up only when every one of its probes missed. */
  lemma {:induction false} RetrySpec(script: seq<bool>, next: nat, loadFails: nat)
    requires loadFails <= LoadFailLimit
    ensures var r := Retry(script, next, loadFails);
            && (r.found ==> 1 <= r.probes && Found(script, next + r.probes - 1)
                            && NoneFound(script, next, next + r.probes - 1))
            && (!r.found ==> NoneFound(script, next, next + r.probes))
    decreases LoadFailLimit - loadFails
  {
    if loadFails < LoadFailLimit && !Found(script, next) {
      var r := Retry(script, next + 1, loadFails + 1);
      assert Retry(script, next, loadFails) == Retried(r.found, r.probes + 1);
      RetrySpec(script, next + 1, loadFails + 1);
      if r.found {
        NoneFoundCons(script, next, next + r.probes);
      } else {
        NoneFoundCons(script, next, next + r.probes + 1);
      }
    }
  }

  /** One iteration of the outer loop, from its head to the `finally`: it
      probes at least once, advances the position, and counts a scroll
      failure when none of its probes finds the post. */
  function Step(script: seq<bool>, s: State): (t: State)
    requires s.scrollFails < ScrollFailLimit
    ensures t.pos == s.pos + 1 && |s.trace| < |t.trace|
    ensures NoneFound(script, |s.trace|, |t.trace|) ==> t.scrollFails == s.scrollFails + 1
  {
    var first := |s.trace|;
    if Found(script, first) then
      s.(pos := s.pos + 1, trace := s.trace + [s.pos], yielded := s.yielded + [s.pos])
    else
      var scrollFails := s.scrollFails + 1;
      var r := Retry(script, first + 1, 0);
      RetrySpec(script, first + 1, 0);
      var trace := s.trace + Repeat(s.pos, 1 + r.probes);
      if r.found then
        State(s.pos + 1, 0, 0, trace, s.yielded + [s.pos], s.scrolls + 1)
      else
        State(s.pos + 1, scrollFails, LoadFailLimit, trace, s.yielded, s.scrolls + 1)
  }

  /** What one iteration does, probe by probe. */
  lemma StepSpec(script: seq<bool>, s: State)
    requires s.scrollFails < ScrollFailLimit
    ensures var t := Step(script, s);
      // between 1 and 1 + LoadFailLimit probes, all of them for the current position
      && |t.trace| <= |s.trace| + 1 + LoadFailLimit
      && t.trace == s.trace + Repeat(s.pos, |t.trace| - |s.trace|)
      // at most one yield, for the current position, exactly when the last probe
      // found it; every earlier probe of the iteration missed
      && t.yielded == (if Found(script, |t.trace| - 1) then s.yielded + [s.pos] else s.yielded)
      && NoneFound(script, |s.trace|, |t.trace| - 1)
      // a first-probe success touches no counter
      && (Found(script, |s.trace|) ==>
            |t.trace| == |s.trace| + 1 && t.scrollFails == s.scrollFails
            && t.loadFails == s.loadFails && t.scrolls == s.scrolls)
      // a first-probe failure scrolls once; a later success resets both counters,
      // exhausting the re-probes counts one more scroll failure
      && (!Found(script, |s.trace|) ==> t.scrolls == s.scrolls + 1)
      && (!Found(script, |s.trace|) && Found(script, |t.trace| - 1) ==>
            t.scrollFails == 0 && t.loadFails == 0)
      && (!Found(script, |t.trace| - 1) ==>
            |t.trace| == |s.trace| + 1 + LoadFailLimit
            && t.scrollFails == s.scrollFails + 1 && t.loadFails == LoadFailLimit)
  {
    RetrySpec(script, |s.trace| + 1, 0);
  }

  /** Script entries not yet consumed. */
  function Unread(script: seq<bool>, s: State): nat
  {
    if |s.trace| < |script| then |script| - |s.trace| else 0
  }

  /** The outer loop from `s` until its guard fails. */
  function Run(script: seq<bool>, s: State): (t: State)
    requires s.scrollFails <= ScrollFailLimit
    // the loop ends only when scroll_fail_count has reached its limit
    ensures t.scrollFails == ScrollFailLimit
    ensures t.pos >= s.pos && |t.trace| >= |s.trace|
    ensures s.yielded <= t.yielded
    decreases Unread(script, s), ScrollFailLimit - s.scrollFails
  {
    if s.scrollFails == ScrollFailLimit then s
    else
      var t := Step(script, s);
      assert |s.trace| >= |script| ==> !Found(script, |t.trace| - 1);
      Run(script, t)
  }

  /** Up to `n` iterations of the outer loop from `s`, fewer when its guard
      fails first. */
  function Steps(script: seq<bool>, s: State, n: nat): (t: State)
    requires s.scrollFails <= ScrollFailLimit
    ensures t.scrollFails <= ScrollFailLimit
    decreases n
  {
    if n == 0 || s.scrollFails == ScrollFailLimit then s
    else Steps(script, Step(script, s), n - 1)
  }

  /** After some iterations the loop goes on exactly as it would have from `s`. */
  lemma {:induction false} RunSteps(script: seq<bool>, s: State, n: nat)
    requires s.scrollFails <= ScrollFailLimit
    ensures Run(script, Steps(script, s, n)) == Run(script, s)
    decreases n
  {
    if n > 0 && s.scrollFails < ScrollFailLimit {
      RunSteps(script, Step(script, s), n - 1);
    }
  }

  function Range(from: nat, n: nat): seq<nat>
  {
    seq(n, j => from + j)
  }

  /** What `browse` keeps true of its state: yields strictly increase and are
      positions that were probed; probes never go back to an earlier position,
      every position passed was probed, none more than 1 + LoadFailLimit times. */
  ghost predicate Orderly(s: State)
  {
    && 1 <= s.pos
    && (forall j, k :: 0 <= j < k < |s.yielded| ==> s.yielded[j] < s.yielded[k])
    && (forall j :: 0 <= j < |s.yielded| ==> s.yielded[j] in s.trace)
    && (forall j, k :: 0 <= j < k < |s.trace| ==> s.trace[j] <= s.trace[k])
    && (forall j :: 0 <= j < |s.trace| ==> 1 <= s.trace[j] < s.pos)
    && (forall p: nat :: 1 <= p < s.pos ==> p in s.trace)
    && (forall j :: 0 <= j && j + 1 + LoadFailLimit < |s.trace| ==>
                      s.trace[j] < s.trace[j + 1 + LoadFailLimit])
  }

  /** An iteration that probes the current position a bounded number of
      times, yields at most that position and moves on keeps `Orderly`. */
  lemma AdvanceOrderly(s: State, t: State)
    requires Orderly(s) && t.pos == s.pos + 1
    requires |s.trace| < |t.trace| <= |s.trace| + 1 + LoadFailLimit
    requires t.trace == s.trace + Repeat(s.pos, |t.trace| - |s.trace|)
    requires t.yielded == s.yielded || t.yielded == s.yielded + [s.pos]
    ensures Orderly(t)
  {
    assert t.trace[|t.trace| - 1] == s.pos;
    forall p: nat | 1 <= p < t.pos
      ensures p in t.trace
    {
      if p < s.pos {
        assert p in s.trace;
      }
    }
    forall j | 0 <= j < |t.yielded|
      ensures t.yielded[j] in t.trace
    {
      if j < |s.yielded| {
        assert t.yielded[j] in s.trace;
      }
    }
  }

  lemma StepOrderly(script: seq<bool>, s: State)
    requires s.scrollFails < ScrollFailLimit && Orderly(s)
    ensures Orderly(Step(script, s))
  {
    StepSpec(script, s);
    AdvanceOrderly(s, Step(script, s));
  }

  /** The outer loop keeps `Orderly`. */
  lemma {:induction false} RunOrderly(script: seq<bool>, s: State)
    requires s.scrollFails <= ScrollFailLimit && Orderly(s)
    ensures Orderly(Run(script, s))
    decreases Unread(script, s), ScrollFailLimit - s.scrollFails
  {
    if s.scrollFails < ScrollFailLimit {
      var t := Step(script, s);
      StepOrderly(script, s);
      assert |s.trace| >= |script| ==> !Found(script, |t.trace| - 1);
      RunOrderly(script, t);
    }
  }

  /** An iteration appends probes of the current position only, and yields
      at most that position: the part of `StepSpec` that `RunAhead` needs,
      kept apart so that its proof does not carry the rest. */
  lemma StepShape(script: seq<bool>, s: State)
    requires s.scrollFails < ScrollFailLimit
    ensures var t := Step(script, s);
            && t.trace == s.trace + Repeat(s.pos, |t.trace| - |s.trace|)
            && (t.yielded == s.yielded || t.yielded == s.yielded + [s.pos])
  {
    StepSpec(script, s);
  }

  /** The loop only ever adds probes and yields, all of them for positions
      from the current one on. */
  lemma {:induction false} RunAhead(script: seq<bool>, s: State)
    requires s.scrollFails <= ScrollFailLimit
    ensures var t := Run(script, s);
            && s.trace <= t.trace
            && (forall j :: |s.trace| <= j < |t.trace| ==> s.pos <= t.trace[j])
            && (forall j :: |s.yielded| <= j < |t.yielded| ==> s.pos <= t.yielded[j])
    decreases Unread(script, s), ScrollFailLimit - s.scrollFails
  {
    if s.scrollFails < ScrollFailLimit {
      var t := Step(script, s);
      StepShape(script, s);
      assert |s.trace| >= |script| ==> !Found(script, |t.trace| - 1);
      RunAhead(script, t);
      var u := Run(script, t);
      forall j | |s.trace| <= j < |u.trace|
        ensures s.pos <= u.trace[j]
      {
        if j < |t.trace| {
          assert u.trace[j] == t.trace[j];
        }
      }
    }
  }

  /** A position whose probes all missed in its iteration is skipped for
      good: it is never yielded and never probed again. */
  lemma SkippedForever(script: seq<bool>, s: State)
    requires s.scrollFails < ScrollFailLimit && Orderly(s)
    requires !Found(script, |Step(script, s).trace| - 1)
    ensures var t := Step(script, s);
            var u := Run(script, s);
            && s.pos !in u.yielded
            && forall j :: |t.trace| <= j < |u.trace| ==> s.pos < u.trace[j]
  {
    var t := Step(script, s);
    StepSpec(script, s);
    RunAhead(script, t);
    var u := Run(script, t);
    assert u == Run(script, s);
    forall j | 0 <= j < |u.yielded|
      ensures u.yielded[j] != s.pos
    {
      if j < |s.yielded| {
        assert u.yielded[j] == s.yielded[j] && s.yielded[j] in s.trace;
      }
    }
  }

  /** An iteration in which every probe misses. */
  lemma StepAllMiss(script: seq<bool>, s: State)
    requires s.scrollFails < ScrollFailLimit
    requires NoneFound(script, |s.trace|, |s.trace| + 1 + LoadFailLimit)
    ensures Step(script, s) == State(s.pos + 1, s.scrollFails + 1, LoadFailLimit,
                                     s.trace + Repeat(s.pos, 1 + LoadFailLimit), s.yielded, s.scrolls + 1)
  {
    assert !Found(script, |s.trace|);
    var r := Retry(script, |s.trace| + 1, 0);
    RetrySpec(script, |s.trace| + 1, 0);
    assert !Found(script, |s.trace| + r.probes);
    RepeatCons(s.trace, s.pos, r.probes);
    StepMiss(script, s);
  }

  /** `n` iterations in which every probe misses: each one skips its
      position after 1 + LoadFailLimit probes and one scroll. */
  lemma {:induction false} MissSteps(script: seq<bool>, s: State, n: nat)
    requires s.scrollFails + n <= ScrollFailLimit
    requires NoneFound(script, |s.trace|, |s.trace| + n * (1 + LoadFailLimit))
    ensures var t := Steps(script, s, n);
            && t.pos == s.pos + n && t.scrollFails == s.scrollFails + n
            && t.yielded == s.yielded && t.scrolls == s.scrolls + n
            && |t.trace| == |s.trace| + n * (1 + LoadFailLimit)
    decreases n
  {
    if n > 0 {
      StepAllMiss(script, s);
      MissSteps(script, Step(script, s), n - 1);
    }
  }

  /** An iteration whose first probe finds the post: the `try` branch of
      `Step` as a whole new state, for the scenario lemmas below. */
  lemma StepHit(script: seq<bool>, s: State)
    requires s.scrollFails < ScrollFailLimit && Found(script, |s.trace|)
    ensures Step(script, s) == s.(pos := s.pos + 1, trace := s.trace + [s.pos], yielded := s.yielded + [s.pos])
  {
  }

  /** `n` iterations whose first probe finds the post: each yields its
      position and leaves the counters alone. */
  lemma {:induction false} HitSteps(script: seq<bool>, s: State, n: nat)
    requires s.scrollFails < ScrollFailLimit
    requires forall k: nat :: |s.trace| <= k < |s.trace| + n ==> Found(script, k)
    ensures Steps(script, s, n) == s.(pos := s.pos + n, trace := s.trace + Range(s.pos, n),
                                      yielded := s.yielded + Range(s.pos, n))
    decreases n
  {
    if n > 0 {
      var t := Step(script, s);
      StepHit(script, s);
      HitSteps(script, t, n - 1);
      var rest := Range(s.pos + 1, n - 1);
      RangeCons(s.pos, n);
      AppendCons(s.trace, s.pos, rest);
      AppendCons(s.yielded, s.pos, rest);
    }
  }

  /** An iteration whose first probe and first `k` re-probes miss and whose
      next re-probe finds the post. */
  lemma StepMissThenHit(script: seq<bool>, s: State, k: nat)
    requires s.scrollFails < ScrollFailLimit && k < LoadFailLimit
    requires NoneFound(script, |s.trace|, |s.trace| + 1 + k) && Found(script, |s.trace| + 1 + k)
    ensures Step(script, s) == State(s.pos + 1, 0, 0, s.trace + Repeat(s.pos, k + 2),
                                     s.yielded + [s.pos], s.scrolls + 1)
  {
    assert !Found(script, |s.trace|);
    RetryAfterMisses(script, |s.trace| + 1, 0, k);
    RepeatCons(s.trace, s.pos, k + 1);
    StepMiss(script, s);
  }

  /** A session that never finds a post: nothing is yielded, after
      ScrollFailLimit scroll cycles of 1 + LoadFailLimit probes each. */
  lemma NothingFound(script: seq<bool>)
    requires forall k :: 0 <= k < |script| ==> !script[k]
    ensures var t := Run(script, Start());
            && t.yielded == [] && t.pos == 1 + ScrollFailLimit
            && t.scrolls == ScrollFailLimit
            && |t.trace| == ScrollFailLimit * (1 + LoadFailLimit)
  {
    MissSteps(script, Start(), ScrollFailLimit);
    RunSteps(script, Start(), ScrollFailLimit);
  }

  /** The first `n` positions are found on their first probe and every later
      probe misses: positions 1..n are yielded, in order, and the harvest
      ends after ScrollFailLimit more scroll cycles. */
  lemma FirstPostsOnly(script: seq<bool>, n: nat)
    requires n <= |script|
    requires forall k :: 0 <= k < |script| ==> script[k] == (k < n)
    ensures var t := Run(script, Start());
            && t.yielded == Range(1, n) && t.pos == n + 1 + ScrollFailLimit
            && t.scrolls == ScrollFailLimit
            && |t.trace| == n + ScrollFailLimit * (1 + LoadFailLimit)
  {
    HitSteps(script, Start(), n);
    var s := Steps(script, Start(), n);
    RunSteps(script, Start(), n);
    MissSteps(script, s, ScrollFailLimit);
    RunSteps(script, s, ScrollFailLimit);
  }

  /** A re-probe that succeeds in the scroll cycle that took
      `scroll_fail_count` to its limit resets it, and the harvest goes on
      for ScrollFailLimit further cycles. */
  lemma RevivedAtLimit(script: seq<bool>)
    requires |script| == ScrollFailLimit * (1 + LoadFailLimit)
    requires forall k :: 0 <= k < |script| ==> script[k] == (k == |script| - 1)
    ensures var t := Run(script, Start());
            && t.yielded == [ScrollFailLimit] && t.pos == 1 + 2 * ScrollFailLimit
            && t.scrolls == 2 * ScrollFailLimit && |t.trace| == 2 * |script|
  {
    MissSteps(script, Start(), ScrollFailLimit - 1);
    var s := Steps(script, Start(), ScrollFailLimit - 1);
    RunSteps(script, Start(), ScrollFailLimit - 1);
    StepMissThenHit(script, s, LoadFailLimit - 1);
    var t := Step(script, s);
    MissSteps(script, t, ScrollFailLimit);
    RunSteps(script, t, ScrollFailLimit);
  }

  function Evens(from: nat, n: nat): seq<nat>
  {
    seq(n, j => from + 2 * j)
  }

  /** The probes numbered from `from` on come in `n` cycles of
      1 + LoadFailLimit misses followed by one success. */
  predicate Cyclic(script: seq<bool>, from: nat, n: nat)
    decreases n
  {
    || n == 0
    || (&& NoneFound(script, from, from + 1 + LoadFailLimit)
        && Found(script, from + 1 + LoadFailLimit)
        && Cyclic(script, from + 2 + LoadFailLimit, n - 1))
  }

  /** The first `n` of `n + 1` cycles, and the last one on its own. */
  lemma {:induction false} CyclicSplit(script: seq<bool>, from: nat, n: nat)
    requires Cyclic(script, from, n + 1)
    ensures Cyclic(script, from, n)
    ensures Cyclic(script, from + n * (2 + LoadFailLimit), 1)
    decreases n
  {
    if n > 0 {
      CyclicSplit(script, from + 2 + LoadFailLimit, n - 1);
      assert from + 2 + LoadFailLimit + (n - 1) * (2 + LoadFailLimit) == from + n * (2 + LoadFailLimit);
    }
  }

  /** The state after a scroll cycle: an iteration whose probes all miss,
      then one whose first probe finds the post. */
  function Cycled(s: State): State
  {
    State(s.pos + 2, s.scrollFails + 1, LoadFailLimit,
          s.trace + Repeat(s.pos, 1 + LoadFailLimit) + [s.pos + 1],
          s.yielded + [s.pos + 1], s.scrolls + 1)
  }

  lemma CycleStep(script: seq<bool>, s: State, m: nat)
    requires 2 <= m && s.scrollFails + 1 < ScrollFailLimit
    requires NoneFound(script, |s.trace|, |s.trace| + 1 + LoadFailLimit)
    requires Found(script, |s.trace| + 1 + LoadFailLimit)
    ensures Steps(script, s, m) == Steps(script, Cycled(s), m - 2)
  {
    StepAllMiss(script, s);
    StepHit(script, Step(script, s));
  }

  /** The state after `n` scroll cycles. */
  function CycledTimes(s: State, n: nat): State
    decreases n
  {
    if n == 0 then s else CycledTimes(Cycled(s), n - 1)
  }

  lemma {:induction false} CycledTimesSpec(s: State, n: nat)
    ensures var t := CycledTimes(s, n);
            && t.pos == s.pos + 2 * n && t.scrollFails == s.scrollFails + n
            && t.yielded == s.yielded + Evens(s.pos + 1, n) && t.scrolls == s.scrolls + n
            && |t.trace| == |s.trace| + n * (2 + LoadFailLimit)
    decreases n
  {
    if n > 0 {
      CycledTimesSpec(Cycled(s), n - 1);
      EvensCons(s.pos + 1, n);
      AppendCons(s.yielded, s.pos + 1, Evens(s.pos + 3, n - 1));
    }
  }

  /** `n` scroll cycles: a first-probe success does not reset
      `scroll_fail_count`, so every cycle adds one scroll failure while
      yielding every second position. */
  lemma {:induction false} MissHitCycles(script: seq<bool>, s: State, n: nat, steps: nat)
    requires steps == 2 * n
    requires s.scrollFails + n < ScrollFailLimit && Cyclic(script, |s.trace|, n)
    ensures Steps(script, s, steps) == CycledTimes(s, n)
    decreases n
  {
    if n > 0 {
      CycleStep(script, s, steps);
      assert |Cycled(s).trace| == |s.trace| + (2 + LoadFailLimit);
      MissHitCycles(script, Cycled(s), n - 1, steps - 2);
      assert CycledTimes(s, n) == CycledTimes(Cycled(s), n - 1);
    } else {
      assert Steps(script, s, steps) == s;
    }
  }

  /** Misses and first-probe successes in alternation: the scroll failures
      accumulate across the successes, and the harvest ends after
      ScrollFailLimit failed cycles although every other position was found. */
  lemma SkipsAccumulate(script: seq<bool>)
    requires Cyclic(script, 0, ScrollFailLimit)
    ensures var t := Run(script, Start());
            && t.yielded == Evens(2, ScrollFailLimit - 1) && t.pos == 2 * ScrollFailLimit
            && t.scrolls == ScrollFailLimit
            && |t.trace| == ScrollFailLimit * (2 + LoadFailLimit) - 1
  {
    var n := ScrollFailLimit - 1;
    CyclicSplit(script, 0, n);
    MissHitCycles(script, Start(), n, 2 * n);
    CycledTimesSpec(Start(), n);
    var s := Steps(script, Start(), 2 * n);
    RunSteps(script, Start(), 2 * n);
    StepAllMiss(script, s);
  }

  /** Each iteration consumes part of the script or, once it is used up,
      adds a scroll failure: the outer loop terminates. */
  lemma StepProgress(script: seq<bool>, s: State)
    requires s.scrollFails < ScrollFailLimit
    ensures var t := Step(script, s);
            || Unread(script, t) < Unread(script, s)
            || (Unread(script, t) == Unread(script, s) && t.scrollFails == s.scrollFails + 1)
  {
    var t := Step(script, s);
    assert |s.trace| >= |script| ==> !Found(script, |t.trace| - 1);
  }

  /** An iteration whose first probe misses: the `except` branch of `Step`
      as a whole new state, for the lemmas that fix the inner loop's outcome. */
  lemma StepMiss(script: seq<bool>, s: State)
    requires s.scrollFails < ScrollFailLimit && !Found(script, |s.trace|)
    ensures var r := Retry(script, |s.trace| + 1, 0);
            Step(script, s) == if r.found
              then State(s.pos + 1, 0, 0, s.trace + Repeat(s.pos, 1 + r.probes),
                         s.yielded + [s.pos], s.scrolls + 1)
              else State(s.pos + 1, s.scrollFails + 1, LoadFailLimit,
                         s.trace + Repeat(s.pos, 1 + r.probes), s.yielded, s.scrolls + 1)
  {
  }

  /** Re-probes that all missed only shift the rest of the inner loop. */
  lemma {:induction false} RetryAfterMisses(script: seq<bool>, next: nat, loadFails: nat, k: nat)
    requires loadFails + k <= LoadFailLimit
    requires NoneFound(script, next, next + k)
    ensures var r := Retry(script, next + k, loadFails + k);
            Retry(script, next, loadFails) == Retried(r.found, r.probes + k)
    decreases k
  {
    if k > 0 {
      assert !Found(script, next);
      RetryAfterMisses(script, next + 1, loadFails + 1, k - 1);
    }
  }

  // Sequence and range identities: proof hints for the lemmas and methods of
  // this module, sparing the solver from rediscovering them by extensionality.

  lemma NoneFoundCons(script: seq<bool>, from: nat, to: nat)
    requires from < to && !Found(script, from) && NoneFound(script, from + 1, to)
    ensures NoneFound(script, from, to)
  {
  }

  lemma RangeCons(from: nat, n: nat)
    requires n > 0
    ensures [from] + Range(from + 1, n - 1) == Range(from, n)
  {
  }

  lemma AppendCons(a: seq<nat>, x: nat, b: seq<nat>)
    ensures a + [x] + b == a + ([x] + b)
  {
  }

  lemma EvensCons(from: nat, n: nat)
    requires n > 0
    ensures [from] + Evens(from + 2, n - 1) == Evens(from, n)
  {
  }

  lemma RepeatSnoc(a: seq<nat>, x: nat, n: nat)
    ensures a + Repeat(x, n) + [x] == a + Repeat(x, n + 1)
  {
    assert Repeat(x, n) + [x] == Repeat(x, n + 1);
  }

  lemma RepeatCons(a: seq<nat>, x: nat, n: nat)
    ensures a + [x] + Repeat(x, n) == a + Repeat(x, n + 1)
  {
    assert [x] + Repeat(x, n) == Repeat(x, n + 1);
  }

  /** The inner loop of `browse`, entered after a failed probe of position
      `pos` and a scroll to the bottom: it re-probes `pos` until the post is
      found, which yields it and resets both counters, or until
      `load_fail_count` reaches its limit. */
  method Reload(script: seq<bool>, pos: nat, scrollFails: nat, trace: seq<nat>, yielded: seq<nat>)
    returns (scrollFails': nat, loadFails: nat, trace': seq<nat>, yielded': seq<nat>)
    ensures var r := Retry(script, |trace|, 0);
            && trace' == trace + Repeat(pos, r.probes)
            && (r.found ==> scrollFails' == 0 && loadFails == 0 && yielded' == yielded + [pos])
            && (!r.found ==> scrollFails' == scrollFails && loadFails == LoadFailLimit
                             && yielded' == yielded)
  {
    scrollFails', loadFails, trace', yielded' := scrollFails, 0, trace, yielded;
    while loadFails < LoadFailLimit
      invariant loadFails <= LoadFailLimit
      invariant trace' == trace + Repeat(pos, loadFails)
      invariant yielded' == yielded && scrollFails' == scrollFails
      invariant NoneFound(script, |trace|, |trace| + loadFails)
    {
      var found := Found(script, |trace'|);
      RepeatSnoc(trace, pos, loadFails);
      trace' := trace' + [pos];
      if found {
        yielded' := yielded' + [pos];
        scrollFails' := 0;
        RetryAfterMisses(script, |trace|, 0, loadFails);
        loadFails := 0;
        break;
      }
      loadFails := loadFails + 1;
    }
    if loadFails == LoadFailLimit {
      RetryAfterMisses(script, |trace|, 0, LoadFailLimit);
    }
  }

  datatype Option<T> = None | Some(value: T)

  /** What a call of `browse` comes to: the fields requested for every post
      and the final loop state, or the abort taken when the page has no feed
      container (`exit(1)` in the source). */
  datatype Harvest<F> = Harvested(fields: seq<F>, final: State) | FeedMissing

  /** One iteration of the outer loop of `browse`: the `try` that probes
      position `i` and yields the post, the `except` that scrolls and runs
      the inner loop, and the `finally` that advances `i`. */
  method Attempt(script: seq<bool>, s: State) returns (t: State)
    requires s.scrollFails < ScrollFailLimit
    ensures t == Step(script, s)
  {
    var i, scrollFails, loadFails := s.pos, s.scrollFails, s.loadFails;
    var trace, yielded, scrolls := s.trace, s.yielded, s.scrolls;
    var found := Found(script, |trace|);
    trace := trace + [i];
    if found {
      yielded := yielded + [i];
      StepHit(script, s);
    } else {
      scrollFails := scrollFails + 1;
      loadFails := 0;
      scrolls := scrolls + 1;
      scrollFails, loadFails, trace, yielded := Reload(script, i, scrollFails, trace, yielded);
      RepeatCons(s.trace, i, Retry(script, |s.trace| + 1, 0).probes);
      StepMiss(script, s);
    }
    i := i + 1;
    t := State(i, scrollFails, loadFails, trace, yielded, scrolls);
  }

  /** `HomeFeed.browse(fields)` run to the end against a session that has a
      feed container iff `feedFound` and answers its probes from `script`;
      `allFields` lists the members of the field enumeration. */
  method Browse<F>(feedFound: bool, script: seq<bool>, fields: Option<seq<F>>, allFields: seq<F>)
    returns (h: Harvest<F>)
    ensures !feedFound ==> h == FeedMissing
    ensures feedFound ==> h.Harvested? && h.final == Run(script, Start())
    ensures h.Harvested? && fields.None? ==> h.fields == allFields
    ensures h.Harvested? && fields.Some? ==> h.fields == fields.value
    ensures h.Harvested? ==> h.final.scrollFails == ScrollFailLimit && Orderly(h.final)
  {
    var requested := if fields.None? then allFields else fields.value;
    if !feedFound {
      return FeedMissing;
    }
    var state := Start();
    while state.scrollFails < ScrollFailLimit
      invariant state.scrollFails <= ScrollFailLimit
      invariant Run(script, state) == Run(script, Start())
      decreases Unread(script, state), ScrollFailLimit - state.scrollFails
    {
      StepProgress(script, state);
      state := Attempt(script, state);
    }
    h := Harvested(requested, state);
    RunOrderly(script, Start());
  }
}
