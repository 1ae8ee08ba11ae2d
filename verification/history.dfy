/** The rolling graph buffer shared by the CPU, fan and thermal tabs: a
    deque that receives `push_back(v)` followed by one `pop_front()` when
    its size exceeds `maxSamples` (100), and that is left alone while the
    tab's "Pause" box is ticked. */
module History {

  const MaxSamples: nat := 100

  /** One unpaused frame: append `v`, then drop the oldest sample if the
      deque grew past `MaxSamples`. */
  function Push<T>(h: seq<T>, v: T): (r: seq<T>)
    ensures |r| > 0 && r[|r| - 1] == v
    ensures |h| < MaxSamples ==> r == h + [v]
    ensures |h| >= MaxSamples ==> r == h[1..] + [v]
    ensures |h| <= MaxSamples ==> |r| <= MaxSamples
    ensures r == (h + [v])[|h| + 1 - |r|..]
  {
    var g := h + [v];
    if |g| > MaxSamples then g[1..] else g
  }

  /** One frame of a graphed tab: paused frames keep the history as it is. */
  function Sample<T>(h: seq<T>, paused: bool, v: T): (r: seq<T>)
    ensures paused ==> r == h
    ensures !paused ==> r == Push(h, v)
    ensures !paused ==> |r| > 0 && r[|r| - 1] == v
    ensures |h| <= MaxSamples ==> |r| <= MaxSamples
  {
    if paused then h else Push(h, v)
  }

  /** The value shown as "Current": the newest sample, 0 when there is none. */
  function Latest(h: seq<real>): (r: real)
    ensures |h| == 0 ==> r == 0.0
    ensures |h| > 0 ==> r == h[|h| - 1]
  {
    if |h| == 0 then 0.0 else h[|h| - 1]
  }

  /** After an unpaused frame the value shown is the sample just taken;
      after a paused frame it is the one shown before. */
  lemma LatestAfterSample(h: seq<real>, paused: bool, v: real)
    ensures !paused ==> Latest(Sample(h, paused, v)) == v
    ensures paused ==> Latest(Sample(h, paused, v)) == Latest(h)
  {
  }

  /** The history after `vs` arrive one unpaused frame at a time. */
  function PushAll<T>(h: seq<T>, vs: seq<T>): seq<T>
    decreases |vs|
  {
    if |vs| == 0 then h else PushAll(Push(h, vs[0]), vs[1..])
  }

  function Min(a: int, b: int): int {
    if a < b then a else b
  }

  /** Below capacity a push only appends. */
  lemma PushBelowCapacity<T>(h: seq<T>, vs: seq<T>)
    requires |h| < MaxSamples && |vs| > 0
    ensures Push(h, vs[0]) + vs[1..] == h + vs
  {
    assert Push(h, vs[0]) == h + [vs[0]];
  }

  /** At capacity a push drops exactly the oldest sample. */
  lemma PushAtCapacity<T>(h: seq<T>, vs: seq<T>)
    requires |h| == MaxSamples && |vs| > 0
    ensures Push(h, vs[0]) + vs[1..] == (h + vs)[1..]
  {
    assert Push(h, vs[0]) == h[1..] + [vs[0]];
  }

  /** Whatever sequence of values arrives, a history that starts within
      capacity holds exactly the newest min(total, MaxSamples) values
      received, oldest first: it never exceeds the capacity and never
      reorders. */
  lemma {:induction false} PushAllKeepsNewest<T>(h: seq<T>, vs: seq<T>)
    requires |h| <= MaxSamples
    ensures |PushAll(h, vs)| == Min(|h| + |vs|, MaxSamples)
    ensures PushAll(h, vs) == (h + vs)[|h| + |vs| - Min(|h| + |vs|, MaxSamples)..]
    decreases |vs|
  {
    if |vs| == 0 {
      assert h + vs == h;
    } else {
      var h' := Push(h, vs[0]);
      var rest := vs[1..];
      PushAllKeepsNewest(h', rest);
      assert PushAll(h, vs) == PushAll(h', rest);
      if |h| < MaxSamples {
        PushBelowCapacity(h, vs);
        assert |h'| + |rest| == |h| + |vs|;
      } else {
        PushAtCapacity(h, vs);
        var k := |h'| + |rest| - Min(|h'| + |rest|, MaxSamples);
        assert (h' + rest)[k..] == (h + vs)[k + 1..];
      }
    }
  }
}
