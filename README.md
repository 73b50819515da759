# feedscraper: the harvest loop and the sidebar-ad reader

This project models the logic at the centre of `feedscraper/feed.py`. The rest of that
file drives a Chrome session and is left out.

- **`HomeFeed.browse`** walks the posts of the home feed by their 1-based position `i`.
  - A position whose post is missing counts as a scroll failure. The loop then scrolls
    to the bottom and re-probes the same position up to 10 times.
  - A success inside that inner loop resets both counters.
  - A success on the first probe leaves both counters as they were.
  - `i` advances in the `finally` of every outer iteration, so a position whose re-probes
    all miss is skipped for good.
  - The outer loop stops when `scroll_fail_count` reaches 10 at its head.
- **`Feed.get_sidebar_ads`** turns the texts of the advertisement elements into
  `(text, link)` pairs. Each text is split into lines, and any text that does not have
  exactly two lines makes the call fail.

Files:

- `home_feed.dfy` (module `HomeFeed`) models the harvest loop.
  - **The probe oracle.** One lookup of a post (`extractors.post_el` followed by
    `Post.from_home_element`) is a probe. Probes are answered by a script of found/not-found
    answers, one entry per probe, and every probe past the end of the script misses.
  - **What a harvest records.** A harvest is a `State`:
    - the position `i`;
    - both counters;
    - the position asked for by every probe (`trace`);
    - the positions yielded;
    - the number of scrolls to the bottom.
  - **The loop as functions.** `Retry` (inner loop), `Step` (one outer iteration) and `Run`
    (the outer loop) describe it. Lemmas state what these do, keep, and produce on
    characteristic scripts.
  - **The loop as methods.** `Reload` (inner loop), `Attempt` (one outer iteration, with the
    `try`/`except`/`finally`) and `Browse` (the whole generator) are imperative and are
    proved against those functions.
- `feed.dfy` (module `Feed`) models `get_sidebar_ads` as a function over the element texts.
- `lines.dfy` (module `Lines`) models `str.splitlines` with '\n' as the only line boundary,
  together with the joining it inverts.

## Model

| member | source | states |
|---|---|---|
| Lines.SplitLines | feedscraper/feed.py:96 | the empty text and only it has no lines; no line contains a line feed |
| Lines.SplitJoin | feedscraper/feed.py:96 | splitting lines joined with '\n' gives those lines back, when none of them holds a line feed |
| Lines.JoinSplit | feedscraper/feed.py:96 | joining the lines of a text gives back the text, with a final '\n' added when it had none |
| Feed.SidebarAds | feedscraper/feed.py:86-97 | no elements give no ads. The call succeeds iff every text has exactly two lines; then it gives one ad per element, in element order, holding the text's first and second line. Otherwise it fails on the first text with another line count, and reports that count |
| Feed.SidebarAdsOfRendered | feedscraper/feed.py:91-97 | reading back the two-line texts that display a list of ads gives exactly those ads, in order |
| HomeFeed.Retry | feedscraper/feed.py:183-198 | the inner loop makes at most 10 minus `load_fail_count` re-probes, and exactly that many when none finds the post |
| HomeFeed.RetrySpec | feedscraper/feed.py:183-198 | the inner loop breaks on the first re-probe that finds the post, after only misses; it gives up only when every re-probe missed |
| HomeFeed.RetryAfterMisses | feedscraper/feed.py:183-195 | re-probes that missed only raise `load_fail_count` and shift the rest of the inner loop |
| HomeFeed.Step | feedscraper/feed.py:163-200 | an outer iteration probes at least once and advances `i` by exactly 1; when all its probes miss, `scroll_fail_count` goes up by 1 |
| HomeFeed.StepSpec | feedscraper/feed.py:164-200 | an outer iteration makes 1 to 11 probes, all of the current `i`. It yields at most once, only that `i`, exactly when its last probe found the post. A first-probe success changes no counter and does not scroll. A first-probe failure scrolls once. A later success resets both counters. Exhausted re-probes make 11 probes, add one scroll failure and leave `load_fail_count` at 10 |
| HomeFeed.StepShape | feedscraper/feed.py:164-200 | an iteration appends probes of the current `i` only and yields at most that `i` |
| HomeFeed.StepMiss | feedscraper/feed.py:170-198 | after a first-probe failure the state is the inner loop's outcome: a success yields `i` and resets both counters, exhaustion adds one scroll failure |
| HomeFeed.StepHit | feedscraper/feed.py:164-169 | a first-probe success yields `i`, records one probe and changes nothing else but `i` |
| HomeFeed.StepAllMiss | feedscraper/feed.py:170-198 | an iteration whose 11 probes all miss skips `i` after one scroll and adds one scroll failure |
| HomeFeed.StepMissThenHit | feedscraper/feed.py:170-192 | a re-probe success after misses yields `i`, resets both counters and records the probes made |
| HomeFeed.Run | feedscraper/feed.py:159-200 | the outer loop ends only with `scroll_fail_count` equal to 10; it never goes back in position and only appends to what it yielded |
| HomeFeed.RunSteps | feedscraper/feed.py:163-200 | after any number of iterations the loop continues exactly as from where it started |
| HomeFeed.StepProgress | feedscraper/feed.py:163-200 | every iteration consumes oracle answers or, once they are used up, adds a scroll failure, so the loop terminates |
| HomeFeed.StepOrderly | feedscraper/feed.py:164-200 | one iteration keeps the ordering invariant |
| HomeFeed.RunOrderly | feedscraper/feed.py:159-200 | the loop keeps the ordering invariant. Yields strictly increase, and each yielded position was probed. Probes never go back to an earlier position. Every position passed was probed, none more than 11 times |
| HomeFeed.RunAhead | feedscraper/feed.py:163-200 | the loop only appends probes and yields, all for positions at or past the current one |
| HomeFeed.SkippedForever | feedscraper/feed.py:183-200 | a position whose probes all missed is never yielded and never probed again |
| HomeFeed.MissSteps | feedscraper/feed.py:163-200 | `n` iterations of only misses skip `n` positions, add `n` scroll failures and make 11 probes each |
| HomeFeed.HitSteps | feedscraper/feed.py:163-169 | `n` first-probe successes yield the next `n` positions in order and leave the counters alone |
| HomeFeed.NothingFound | feedscraper/feed.py:159-200 | when no probe succeeds, nothing is yielded. The harvest makes 10 scroll cycles of 11 probes (110 probes) and ends with `i` = 11 |
| HomeFeed.FirstPostsOnly | feedscraper/feed.py:159-200 | when only the first k positions are found, each on its first probe, positions 1..k are yielded in order. The harvest then ends after 10 more scroll cycles |
| HomeFeed.RevivedAtLimit | feedscraper/feed.py:163-192 | a re-probe success in the cycle that raised `scroll_fail_count` to 10 resets it, and the harvest goes on for 10 more cycles |
| HomeFeed.CycleStep | feedscraper/feed.py:164-200 | a cycle of a fully missed iteration followed by a first-probe success adds one scroll failure and yields the second position |
| HomeFeed.MissHitCycles | feedscraper/feed.py:163-200 | `n` such cycles yield every second position, while scroll failures accumulate across the successes |
| HomeFeed.CycledTimesSpec | feedscraper/feed.py:163-200 | after `n` such cycles, `i` has moved by 2n, there are `n` more scroll failures and scrolls, and the yields are the even offsets |
| HomeFeed.SkipsAccumulate | feedscraper/feed.py:163-191 | with misses and first-probe successes in alternation, the harvest ends after 10 failed cycles though every second position was found |
| HomeFeed.Reload | feedscraper/feed.py:183-198 | the inner loop re-probes `i` until it is found or 10 re-probes missed. It records each re-probe. On success it yields `i` and resets both counters; otherwise `load_fail_count` ends at 10 |
| HomeFeed.Attempt | feedscraper/feed.py:164-200 | one pass of the `try`/`except`/`finally` computes exactly the iteration `Step` describes |
| HomeFeed.Browse | feedscraper/feed.py:146-200 | a missing feed container aborts before any probe. The field list is every field when `fields` is None, else `fields`. Otherwise the harvest is the outer loop run from `i` = 1 with zero counters; it ends with `scroll_fail_count` at 10 and satisfies the ordering invariant |

## Left out

- Browser start-up, log-in, the Chrome profile, the Home button and driver teardown
  (`feedscraper/feed.py:24-61`, `103-127`): Selenium I/O.
- Scrolling (`feedscraper/feed.py:63-82`): only the number of scrolls to the bottom is
  recorded. `scroll_to_top` before the feed lookup has no effect on the model.
- Every `sleep`, including `SCROLL_PAUSE` and the 0.5 s wait between re-probes: timing only.
- Logging through `utils.warning`, `utils.error` and `traceback`.
  - `post_count` is never changed in the source, so it carries no state and is not modelled.
- `extractors.post_el`, `Post.from_home_element` and the `Field` enumeration are not part of
  this model.
  - A probe is one found/not-found answer of the oracle, and a `NoSuchElementException` from
    either call is a miss.
  - Which fields each post carries, and any per-field failure, are not modelled.
  - `Field` is a type parameter whose members are passed in as `allFields`.
- Exceptions other than `NoSuchElementException`, which would end the generator.
- Generator suspension: a harvest is the finished run, not a consumer pulling items one at
  a time.
- `exit(1)` after a missing feed container is the `FeedMissing` result.
- HomeFeed.Browse: an oracle that keeps finding posts forever (an endless feed) is not
  modelled. Every script is finite and answers "not found" past its end, which is what makes
  every modelled harvest terminate.
- Lines.SplitLines: only '\n' ends a line. Python's `str.splitlines` also splits on '\r',
  "\r\n", '\v', '\f', '\x1c'-'\x1e', '\x85', U+2028 and U+2029.
- `load_fail_count` is unbound in the source until the first scroll failure. The model starts
  it at 0, which no yield or guard can observe.
- A first-probe success does not reset `scroll_fail_count` (`feedscraper/feed.py:165-169`),
  although the comment at `feedscraper/feed.py:162` describes the limit as 10 scroll
  attempts that find no post, and the inner loop does reset on success
  (`feedscraper/feed.py:190-191`). The model follows the code; `SkipsAccumulate` shows the
  consequence: with misses and first-probe successes in alternation the harvest ends after
  yielding 9 posts.
