/** So many requests a window for each key, kept in memory in slices that are compacted in place. */
module RateLimits {
  /** The times still within the window that ends now, in order. */
  function Recent(times: seq<int>, now: int, window: int): seq<int> {
    if times == [] then []
    else
      var last := times[|times| - 1];
      Recent(times[..|times| - 1], now, window) + if now - last < window then [last] else []
  }

  // ------------------------------------------------------------- limiter

  class Limiter {
    /** A slice's backing array and length, by key. */
    var buffers: map<string, array<int>>
    var counts: map<string, nat>

    ghost predicate Valid()
      reads this, buffers.Values
    {
      && buffers.Keys == counts.Keys
      && (forall k :: k in buffers ==> buffers[k] in buffers.Values && counts[k] <= buffers[k].Length)
      && (forall k, l :: k in buffers && l in buffers && k != l ==> buffers[k] != buffers[l])
    }

    ghost function Hits(key: string): seq<int>
      requires Valid()
      reads this, buffers.Values
    {
      if key in buffers then buffers[key][..counts[key]] else []
    }

    constructor ()
      ensures Valid() && buffers == map[] && forall k :: Hits(k) == []
    {
      buffers, counts := map[], map[];
    }

    /** Keeps the recent times at the front of the same array; the write never overtakes the read. */
    static method Compact(buffer: array<int>, count: nat, now: int, window: int) returns (kept: nat)
      requires count <= buffer.Length
      modifies buffer
      ensures kept <= count && buffer[..kept] == Recent(old(buffer[..count]), now, window)
    {
      kept := 0;
      ghost var times := buffer[..count];
      for i := 0 to count
        invariant kept <= i && buffer[..kept] == Recent(times[..i], now, window)
        invariant forall j :: i <= j < count ==> buffer[j] == times[j]
      {
        var at := buffer[i];
        assert times[..i + 1][..i] == times[..i];
        if now - at < window {
          buffer[kept] := at;
          kept := kept + 1;
        }
      }
      assert times[..count] == times;
    }

    /** Appending: in place while the array has room, otherwise to a longer copy. */
    static method Append(buffer: array<int>, count: nat, at: int) returns (grown: array<int>)
      requires count <= buffer.Length
      modifies buffer
      ensures grown == buffer || fresh(grown)
      ensures count < grown.Length && grown[..count + 1] == old(buffer[..count]) + [at]
    {
      if count < buffer.Length {
        grown := buffer;
      } else {
        grown := new int[2 * count + 1](_ => 0);
        forall i | 0 <= i < count { grown[i] := buffer[i]; }
      }
      grown[count] := at;
    }

    /** No other key's slice lies in this array. */
    ghost predicate Apart(key: string, buffer: array<int>)
      reads this
    {
      forall k :: k in buffers && k != key ==> buffers[k] != buffer
    }

    /** A key's slice; an empty one for a key not seen before. */
    method Slice(key: string) returns (buffer: array<int>, count: nat)
      requires Valid()
      ensures count <= buffer.Length && buffer[..count] == Hits(key) && Apart(key, buffer)
      ensures buffer in buffers.Values || fresh(buffer)
    {
      if key in buffers {
        buffer, count := buffers[key], counts[key];
      } else {
        buffer, count := new int[0], 0;
      }
    }

    method Keep(key: string, buffer: array<int>, count: nat)
      requires Valid() && Apart(key, buffer) && count <= buffer.Length
      modifies this
      ensures Valid() && Hits(key) == buffer[..count] && buffers == old(buffers)[key := buffer]
      ensures forall k :: k != key ==> Hits(k) == old(Hits(k))
    {
      buffers := buffers[key := buffer];
      counts := counts[key := count];
    }

    method Allow(key: string, limit: int, window: int, now: int) returns (allowed: bool)
      requires Valid()
      modifies this, buffers.Values
      ensures Valid()
      ensures allowed <==> |Recent(old(Hits(key)), now, window)| < limit
      ensures Hits(key) == Recent(old(Hits(key)), now, window) + if allowed then [now] else []
      ensures forall k :: k != key ==> Hits(k) == old(Hits(k))
      ensures fresh(buffers.Values - old(buffers.Values))
    {
      var buffer, count := Slice(key);
      var kept := Compact(buffer, count, now, window);
      allowed := kept < limit;
      if allowed {
        buffer := Append(buffer, kept, now);
        kept := kept + 1;
      }
      Keep(key, buffer, kept);
    }

    /** What is held of each key is what the rule would have kept of its calls. */
    ghost predicate Holds(calls: seq<Call>, limit: string -> int, window: string -> int)
      requires Valid()
      reads this, buffers.Values
    {
      forall k :: Hits(k) == Stored(TimesOf(calls, k), limit(k), window(k))
    }

    method AllowNext(calls: seq<Call>, i: nat, limit: string -> int, window: string -> int) returns (allowed: bool)
      requires Valid() && i < |calls| && Holds(calls[..i], limit, window)
      modifies this, buffers.Values
      ensures Valid() && Holds(calls[..i + 1], limit, window)
      ensures InTime(calls) ==> (allowed <==> ByTheRule(calls, i, limit(calls[i].key), window(calls[i].key)))
      ensures fresh(buffers.Values - old(buffers.Values))
    {
      var key := calls[i].key;
      NextCall(calls, i, limit, window);
      allowed := Allow(key, limit(key), window(key), calls[i].at);
      forall k ensures Hits(k) == Stored(TimesOf(calls[..i + 1], k), limit(k), window(k)) {
        if k != key { OtherCall(calls, i, k); }
      }
    }

    /**
     * A new limiter through any calls, each key with its own limit and window: it holds of each key what the
     * rule would keep, and, with time moving forward, allows exactly the calls with fewer than the limit of
     * the key's allowed ones in the window behind them.
     */
    method AllowAll(calls: seq<Call>, limit: string -> int, window: string -> int) returns (answers: seq<bool>)
      requires Valid() && buffers == map[]
      modifies this, buffers.Values
      ensures Valid() && Holds(calls, limit, window)
      ensures |answers| == |calls| && (InTime(calls) ==> Ruled(calls, answers, limit, window))
    {
      answers := [];
      for i := 0 to |calls|
        invariant Valid() && fresh(buffers.Values) && Holds(calls[..i], limit, window) && |answers| == i
        invariant InTime(calls) ==> Ruled(calls, answers, limit, window)
      {
        var allowed := AllowNext(calls, i, limit, window);
        if InTime(calls) { RuledOn(calls, answers, allowed, limit, window); }
        answers := answers + [allowed];
      }
      assert calls[..|calls|] == calls;
    }
  }

  datatype Call = Call(key: string, at: int)

  /** When one key's calls were made. */
  function TimesOf(calls: seq<Call>, key: string): seq<int> {
    if calls == [] then []
    else
      var last := calls[|calls| - 1];
      TimesOf(calls[..|calls| - 1], key) + if last.key == key then [last.at] else []
  }

  predicate InTime(calls: seq<Call>) {
    forall i, j :: 0 <= i < j < |calls| ==> calls[i].at <= calls[j].at
  }

  /** Fewer than the limit of the key's earlier allowed calls lie in the window behind this one. */
  predicate ByTheRule(calls: seq<Call>, i: nat, limit: int, window: int)
    requires i < |calls|
  {
    |Recent(AllowedCalls(TimesOf(calls[..i], calls[i].key), limit, window), calls[i].at, window)| < limit
  }

  /** Each answer is the rule's. */
  predicate Ruled(calls: seq<Call>, answers: seq<bool>, limit: string -> int, window: string -> int) {
    |answers| <= |calls| && forall i :: 0 <= i < |answers| ==>
      (answers[i] <==> ByTheRule(calls, i, limit(calls[i].key), window(calls[i].key)))
  }

  lemma RuledOn(calls: seq<Call>, answers: seq<bool>, answer: bool, limit: string -> int, window: string -> int)
    requires |answers| < |calls| && Ruled(calls, answers, limit, window)
    requires answer <==> ByTheRule(calls, |answers|, limit(calls[|answers|].key), window(calls[|answers|].key))
    ensures Ruled(calls, answers + [answer], limit, window)
  {
  }

  lemma {:induction false} TimesInTime(calls: seq<Call>, key: string)
    requires InTime(calls)
    ensures NonDecreasing(TimesOf(calls, key))
    ensures forall i :: 0 <= i < |TimesOf(calls, key)| ==> calls != [] && TimesOf(calls, key)[i] <= calls[|calls| - 1].at
  {
    if calls != [] {
      TimesInTime(calls[..|calls| - 1], key);
    }
  }

  /** One call more: the slice decides as the rule does. */
  lemma NextCall(calls: seq<Call>, i: nat, limit: string -> int, window: string -> int)
    requires i < |calls|
    ensures var (key, at) := (calls[i].key, calls[i].at);
            var recent := Recent(Stored(TimesOf(calls[..i], key), limit(key), window(key)), at, window(key));
            && Stored(TimesOf(calls[..i + 1], key), limit(key), window(key)) == recent + (if |recent| < limit(key) then [at] else [])
            && (InTime(calls) ==> (|recent| < limit(key) <==> ByTheRule(calls, i, limit(key), window(key))))
  {
    var (key, at) := (calls[i].key, calls[i].at);
    assert calls[..i + 1][..i] == calls[..i];
    var times := TimesOf(calls[..i], key);
    assert (times + [at])[..|times|] == times;
    if InTime(calls) {
      TimesInTime(calls[..i], key);
      SliceIsEnough(times, limit(key), window(key), at);
    }
  }

  lemma OtherCall(calls: seq<Call>, i: nat, key: string)
    requires i < |calls| && calls[i].key != key
    ensures TimesOf(calls[..i + 1], key) == TimesOf(calls[..i], key)
  {
    assert calls[..i + 1][..i] == calls[..i];
  }

  // ------------------------------------------------------------ reference

  predicate NonDecreasing(times: seq<int>) {
    forall i, j :: 0 <= i < j < |times| ==> times[i] <= times[j]
  }

  /** What one key's slice holds after calls at these times. */
  function Stored(calls: seq<int>, limit: int, window: int): seq<int> {
    if calls == [] then []
    else
      var now := calls[|calls| - 1];
      var recent := Recent(Stored(calls[..|calls| - 1], limit, window), now, window);
      recent + if |recent| < limit then [now] else []
  }

  /** Every call of the key ever allowed, by the rule: fewer than limit earlier ones in the trailing window. */
  function AllowedCalls(calls: seq<int>, limit: int, window: int): seq<int> {
    if calls == [] then []
    else
      var now := calls[|calls| - 1];
      var earlier := AllowedCalls(calls[..|calls| - 1], limit, window);
      earlier + if |Recent(earlier, now, window)| < limit then [now] else []
  }

  lemma {:induction false} RecentAppend(times: seq<int>, at: int, now: int, window: int)
    ensures Recent(times + [at], now, window) == Recent(times, now, window) + if now - at < window then [at] else []
  {
    assert (times + [at])[..|times|] == times;
  }

  /** What has left the window does not come back. */
  lemma {:induction false} RecentTwice(times: seq<int>, now: int, later: int, window: int)
    requires now <= later
    ensures Recent(Recent(times, now, window), later, window) == Recent(times, later, window)
  {
    if times != [] {
      var init := times[..|times| - 1];
      var last := times[|times| - 1];
      RecentTwice(init, now, later, window);
      if now - last < window {
        RecentAppend(Recent(init, now, window), last, later, window);
      } else {
        assert Recent(times, now, window) == Recent(init, now, window);
      }
    }
  }

  /**
   * The compacted slice answers as the whole history would: with time moving forward, both hold the same
   * recent calls at every later moment, so every call is decided by the rule.
   */
  lemma {:induction false} SliceIsEnough(calls: seq<int>, limit: int, window: int, later: int)
    requires NonDecreasing(calls) && (calls != [] ==> calls[|calls| - 1] <= later)
    ensures Recent(Stored(calls, limit, window), later, window) == Recent(AllowedCalls(calls, limit, window), later, window)
  {
    if calls != [] {
      var init := calls[..|calls| - 1];
      var now := calls[|calls| - 1];
      var (stored, allowed) := (Stored(init, limit, window), AllowedCalls(init, limit, window));
      SliceIsEnough(init, limit, window, now);
      SliceIsEnough(init, limit, window, later);
      var recent := Recent(stored, now, window);
      RecentTwice(stored, now, later, window);
      if |recent| < limit {
        RecentAppend(recent, now, later, window);
        RecentAppend(allowed, now, later, window);
      } else {
        assert Stored(calls, limit, window) == recent && AllowedCalls(calls, limit, window) == allowed;
      }
    }
  }

  /** How many of the times lie after a and not after b. */
  function Within(times: seq<int>, a: int, b: int): nat {
    if times == [] then 0
    else Within(times[..|times| - 1], a, b) + if a < times[|times| - 1] <= b then 1 else 0
  }

  /** Of times not after now, the recent ones are those less than a window back, each where it stood before the later ones. */
  lemma {:induction false} RecentIs(times: seq<int>, now: int, window: int)
    requires forall i :: 0 <= i < |times| ==> times[i] <= now
    ensures |Recent(times, now, window)| == Within(times, now - window, now)
    ensures forall t :: t in Recent(times, now, window) <==> t in times && now - window < t
  {
    if times != [] {
      var (init, last) := (times[..|times| - 1], times[|times| - 1]);
      assert times == init + [last];
      RecentIs(init, now, window);
    }
  }

  /** A call is allowed exactly when fewer than the limit of the allowed ones before it lie less than a window back. */
  lemma AllowedIff(calls: seq<int>, now: int, limit: int, window: int)
    requires NonDecreasing(calls) && forall i :: 0 <= i < |calls| ==> calls[i] <= now
    ensures var before := AllowedCalls(calls, limit, window);
            AllowedCalls(calls + [now], limit, window)
            == before + if Within(before, now - window, now) < limit then [now] else []
  {
    var before := AllowedCalls(calls, limit, window);
    AllowedAreCalls(calls, limit, window);
    RecentIs(before, now, window);
    assert (calls + [now])[..|calls|] == calls;
  }

  lemma {:induction false} AllowedAreCalls(calls: seq<int>, limit: int, window: int)
    requires NonDecreasing(calls)
    ensures var allowed := AllowedCalls(calls, limit, window);
            NonDecreasing(allowed) && forall i :: 0 <= i < |allowed| ==> calls != [] && allowed[i] <= calls[|calls| - 1]
  {
    if calls != [] {
      AllowedAreCalls(calls[..|calls| - 1], limit, window);
    }
  }

  /** No more of them lie in a window ending at or after now than are recent now. */
  lemma {:induction false} WithinIsRecent(times: seq<int>, now: int, window: int, b: int)
    requires now <= b
    ensures Within(times, b - window, b) <= |Recent(times, now, window)|
  {
    if times != [] { WithinIsRecent(times[..|times| - 1], now, window, b); }
  }

  /** Whatever the calls, no window of the given length holds more than the limit of allowed ones. */
  lemma {:induction false} WindowHoldsAtMostLimit(calls: seq<int>, limit: nat, window: int, b: int)
    requires NonDecreasing(calls)
    ensures Within(AllowedCalls(calls, limit, window), b - window, b) <= limit
  {
    if calls != [] {
      var init := calls[..|calls| - 1];
      var now := calls[|calls| - 1];
      var earlier := AllowedCalls(init, limit, window);
      WindowHoldsAtMostLimit(init, limit, window, b);
      if |Recent(earlier, now, window)| < limit {
        assert (earlier + [now])[..|earlier|] == earlier;
        if now <= b { WithinIsRecent(earlier, now, window, b); }
      } else {
        assert AllowedCalls(calls, limit, window) == earlier;
      }
    }
  }
}
