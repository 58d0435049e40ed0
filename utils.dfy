/**
  The small helpers the bot uses around the mapper: the image URL and size
  checks, message truncation, and the sliding-window bookkeeping of the rate
  limiter. The limiter's clock reading is a parameter and its sleep is
  returned as a value.
 */
module Utils {
  import opened Text

  type Byte = bv8

  const ValidImageExtensions: seq<string> := [".png", ".jpg", ".jpeg", ".gif", ".webp", ".bmp"]

  /** The default size limit of `is_valid_image_size`: 10 MiB. */
  const DefaultMaxImageSize: int := 10485760

  /** `any(n in text for n in needles)`. */
  function AnyContains(text: string, needles: seq<string>): (b: bool)
    ensures b <==> exists n :: n in needles && Occurs(n, text)
  {
    if needles == [] then false
    else Contains(text, needles[0]) || AnyContains(text, needles[1..])
  }

  /**
    `ImageUtils.is_valid_image_url`: an empty URL is rejected; otherwise one of
    the image extensions must occur somewhere in the lowercased URL, not
    necessarily at its end.
   */
  function IsValidImageUrl(url: string): (b: bool)
    ensures url == [] ==> !b
    ensures b <==> url != [] && exists ext :: ext in ValidImageExtensions && Occurs(ext, Lower(url))
  {
    if url == [] then false else AnyContains(Lower(url), ValidImageExtensions)
  }

  /** Lowering distributes over concatenation. */
  lemma LowerAppend(a: string, b: string)
    ensures Lower(a + b) == Lower(a) + Lower(b)
  {
    assert forall i :: 0 <= i < |a + b| ==> Lower(a + b)[i] == (Lower(a) + Lower(b))[i];
  }

  /**
    The extension need not end the URL: whatever follows a valid URL (a query
    string, another extension) leaves it valid.
   */
  lemma ValidUrlExtends(url: string, more: string)
    requires IsValidImageUrl(url)
    ensures IsValidImageUrl(url + more)
  {
    var ext :| ext in ValidImageExtensions && Occurs(ext, Lower(url));
    var i :| OccursAt(ext, Lower(url), i);
    LowerAppend(url, more);
    assert (Lower(url) + Lower(more))[i..i + |ext|] == Lower(url)[i..i + |ext|];
    assert OccursAt(ext, Lower(url + more), i);
  }

  /** The check ignores letter case: a URL and its lowered form get the same verdict. */
  lemma ValidUrlIgnoresCase(url: string)
    ensures IsValidImageUrl(Lower(url)) == IsValidImageUrl(url)
  {
    LowerIdempotent(url);
  }

  /** `ImageUtils.is_valid_image_size`: the data is at most `maxSize` bytes long. */
  function IsValidImageSize(data: seq<Byte>, maxSize: int := DefaultMaxImageSize): (b: bool)
    ensures b <==> |data| <= maxSize
  {
    |data| <= maxSize
  }

  /** Accepted data stays accepted when cut shorter or checked against a larger limit. */
  lemma ValidImageSizeMonotone(data: seq<Byte>, maxSize: int, n: nat, largerMax: int)
    requires IsValidImageSize(data, maxSize)
    requires n <= |data| && maxSize <= largerMax
    ensures IsValidImageSize(data[..n], maxSize)
    ensures IsValidImageSize(data, largerMax)
  {
  }

  /**
    `MessageUtils.truncate_text`: short enough text is returned as it is;
    longer text is cut to `text[:maxLength - 3]` (a Python slice, so a negative
    bound counts from the end) and an ellipsis is appended.
   */
  function TruncateText(text: string, maxLength: int := 100): (r: string)
    ensures |text| <= maxLength ==> r == text
    ensures |text| > maxLength ==> |r| >= 3 && r[|r| - 3..] == "..." && r[..|r| - 3] <= text
    ensures |text| > maxLength >= 3 ==> |r| == maxLength && r[..maxLength - 3] == text[..maxLength - 3]
  {
    if |text| <= maxLength then text else Take(text, maxLength - 3) + "..."
  }

  /** With a limit of at least 3, truncating twice is truncating once. */
  lemma TruncateIdempotent(text: string, maxLength: int)
    requires maxLength >= 3
    ensures TruncateText(TruncateText(text, maxLength), maxLength) == TruncateText(text, maxLength)
  {
  }

  /**
    With a limit below 3 the ellipsis alone is already too long: an over-long
    text comes back longer than the limit.
   */
  lemma TruncateOvershootsSmallLimits(text: string, maxLength: int)
    requires maxLength < 3 && |text| > maxLength
    ensures |TruncateText(text, maxLength)| > maxLength
  {
  }

  // ---------------------------------------------------------------------------
  // Rate limiter

  /** Call times in non-decreasing order, as a clock that never goes back produces them. */
  predicate Sorted(s: seq<real>)
  {
    forall i, j :: 0 <= i < j < |s| ==> s[i] <= s[j]
  }

  /**
    `[t for t in calls if now - t < window]`: the recorded calls still inside
    the time window, in their original order.
   */
  function Recent(calls: seq<real>, now: real, window: int): (kept: seq<real>)
    ensures |kept| <= |calls|
    ensures forall t :: t in kept <==> t in calls && now - t < window as real
  {
    if calls == [] then []
    else
      var last := calls[|calls| - 1];
      Recent(calls[..|calls| - 1], now, window) + (if now - last < window as real then [last] else [])
  }

  /** When no call is inside the window, none is kept. */
  lemma {:induction false} RecentOfExpired(calls: seq<real>, now: real, window: int)
    requires forall i :: 0 <= i < |calls| ==> now - calls[i] >= window as real
    ensures Recent(calls, now, window) == []
  {
    if calls != [] {
      RecentOfExpired(calls[..|calls| - 1], now, window);
    }
  }

  /** For time-ordered calls the window drops a prefix and keeps the rest: the newest calls. */
  lemma {:induction false} RecentOfSortedIsSuffix(calls: seq<real>, now: real, window: int)
    requires Sorted(calls)
    ensures var kept := Recent(calls, now, window); kept == calls[|calls| - |kept|..]
  {
    if calls != [] {
      var init, last := calls[..|calls| - 1], calls[|calls| - 1];
      SortedPrefix(calls, |calls| - 1);
      RecentOfSortedIsSuffix(init, now, window);
      if now - last >= window as real {
        EarlierCallsExpired(calls, now, window);
        RecentOfExpired(init, now, window);
      } else {
        SuffixOfInit(calls, |Recent(init, now, window)|);
      }
    }
  }

  /** A suffix of a list is a suffix of all but its last element, followed by that element. */
  lemma SuffixOfInit(s: seq<real>, k: nat)
    requires k < |s|
    ensures s[|s| - k - 1..] == s[..|s| - 1][|s| - 1 - k..] + [s[|s| - 1]]
  {
  }

  /** When the newest of time-ordered calls is outside the window, so are all the others. */
  lemma EarlierCallsExpired(calls: seq<real>, now: real, window: int)
    requires Sorted(calls) && calls != [] && now - calls[|calls| - 1] >= window as real
    ensures forall i :: 0 <= i < |calls| ==> now - calls[i] >= window as real
  {
  }

  /** A prefix of a time-ordered list is time-ordered. */
  lemma SortedPrefix(s: seq<real>, n: nat)
    requires Sorted(s) && n <= |s|
    ensures Sorted(s[..n])
  {
    var prefix := s[..n];
    forall i, j | 0 <= i < j < n ensures prefix[i] <= prefix[j] {
      assert prefix[i] == s[i] && prefix[j] == s[j];
    }
  }

  /** A suffix of a time-ordered list is time-ordered. */
  lemma SortedSuffix(s: seq<real>, k: nat)
    requires Sorted(s) && k <= |s|
    ensures Sorted(s[k..])
  {
    var suffix := s[k..];
    forall i, j | 0 <= i < j < |suffix| ensures suffix[i] <= suffix[j] {
      assert suffix[i] == s[k + i] && suffix[j] == s[k + j];
    }
  }

  /** Recording `now` after pruning keeps a time-ordered list time-ordered. */
  lemma RecentKeepsOrder(calls: seq<real>, now: real, window: int)
    ensures Sorted(calls) && (forall t :: t in calls ==> t <= now) ==> Sorted(Recent(calls, now, window) + [now])
  {
    if Sorted(calls) && (forall t :: t in calls ==> t <= now) {
      var kept := Recent(calls, now, window);
      RecentOfSortedIsSuffix(calls, now, window);
      SortedSuffix(calls, |calls| - |kept|);
      var recorded := kept + [now];
      forall i, j | 0 <= i < j < |recorded| ensures recorded[i] <= recorded[j] {
        assert recorded[i] == kept[i];
        if j == |kept| {
          assert kept[i] in calls;
        } else {
          assert recorded[j] == kept[j];
        }
      }
    }
  }

  /**
    The pruning loop of `wait_if_needed`, proved to compute `Recent`.
   */
  method Prune(calls: seq<real>, now: real, window: int) returns (kept: seq<real>)
    ensures kept == Recent(calls, now, window)
  {
    kept := [];
    var i := 0;
    while i < |calls|
      invariant 0 <= i <= |calls|
      invariant kept == Recent(calls[..i], now, window)
    {
      assert calls[..i + 1][..i] == calls[..i];
      if now - calls[i] < window as real {
        kept := kept + [calls[i]];
      }
      i := i + 1;
    }
    assert calls[..|calls|] == calls;
  }

  /** What one `wait_if_needed` call does besides recording itself. */
  datatype Pacing =
    | Proceed                 // under the limit: no wait
    | Wait(seconds: real)     // at the limit: the computed wait, slept when positive
    | IndexError              // at a limit of 0 or less with nothing recorded: `calls[0]` raises

  /** `RateLimiter`: at most `maxCalls` calls per `timeWindow` seconds. */
  class RateLimiter {
    const maxCalls: int
    const timeWindow: int
    var calls: seq<real>

    constructor (maxCalls: int, timeWindow: int)
      ensures this.maxCalls == maxCalls && this.timeWindow == timeWindow
      ensures calls == []
    {
      this.maxCalls := maxCalls;
      this.timeWindow := timeWindow;
      calls := [];
    }

    /**
      `wait_if_needed`, with the clock reading `now` passed in: forget the calls
      outside the window; when at least `maxCalls` remain, compute the wait
      from the oldest remaining call; then record `now`. The wait, when there
      is one, always exceeds one second, so the source's `wait_time > 0` guard
      never skips the sleep.
     */
    method WaitIfNeeded(now: real) returns (pacing: Pacing)
      modifies this
      ensures var kept := Recent(old(calls), now, timeWindow);
        && (pacing.IndexError? ==> calls == kept)
        && (!pacing.IndexError? ==> calls == kept + [now])
        && (pacing.Proceed? <==> |kept| < maxCalls)
        && (pacing.IndexError? <==> |kept| >= maxCalls && kept == [])
        && (pacing.Wait? ==> kept != [] && pacing.seconds == timeWindow as real - (now - kept[0]) + 1.0)
      ensures pacing.Wait? ==> pacing.seconds > 1.0
      ensures pacing.Proceed? ==> |calls| <= maxCalls
      ensures Sorted(old(calls)) && (forall t :: t in old(calls) ==> t <= now) ==> Sorted(calls)
    {
      var kept := Prune(calls, now, timeWindow);
      RecentKeepsOrder(old(calls), now, timeWindow);
      calls := kept;
      if |kept| >= maxCalls {
        if kept == [] {
          return IndexError;
        }
        assert kept[0] in kept;
        pacing := Wait(timeWindow as real - (now - kept[0]) + 1.0);
      } else {
        pacing := Proceed;
      }
      calls := calls + [now];
    }
  }
}
