/** The token bucket of src/api/rate_limiter.py over exact real arithmetic. Readings of the
    monotonic clock are parameters. */
module RateLimiter {

  function Min(a: real, b: real): real {
    if a <= b then a else b
  }

  function Ceil(x: real): int {
    -((-x).Floor)
  }

  datatype Bucket = Bucket(capacity: real, fillRate: real, tokens: real, last: real)
  {
    function Refilled(now: real): real {
      Min(capacity, tokens + (now - last) * fillRate)
    }

    function Granted(now: real, amount: real): bool {
      Refilled(now) >= amount
    }

    function Consume(now: real, amount: real): Bucket {
      this.(tokens := if Granted(now, amount) then Refilled(now) - amount else Refilled(now), last := now)
    }

    function RetryAfter(now: real, amount: real): int {
      if Granted(now, amount) then 0
      else if fillRate > 0.0 then
        var wait := Ceil((amount - Refilled(now)) / fillRate);
        if wait >= 1 then wait else 1
      else 60
    }
  }

  function FullBucket(capacity: real, fillRate: real, now: real): Bucket {
    Bucket(capacity, fillRate, capacity, now)
  }

  class TokenBucket {
    const capacity: real
    const fillRate: real
    var tokens: real
    var lastUpdate: real

    ghost function State(): Bucket
      reads this
    {
      Bucket(capacity, fillRate, tokens, lastUpdate)
    }

    constructor (capacity: int, fillRate: real, now: real)
      ensures State() == FullBucket(capacity as real, fillRate, now)
    {
      this.capacity := capacity as real;
      this.fillRate := fillRate;
      tokens := capacity as real;
      lastUpdate := now;
    }

    method Consume(now: real, amount: real) returns (granted: bool, retryAfter: int)
      modifies this
      ensures State() == old(State()).Consume(now, amount)
      ensures granted == old(State()).Granted(now, amount)
      ensures retryAfter == old(State()).RetryAfter(now, amount) && (granted ==> retryAfter == 0)
    {
      var elapsed := now - lastUpdate;
      lastUpdate := now;
      tokens := Min(capacity, tokens + elapsed * fillRate);
      assert tokens == old(State()).Refilled(now);
      if tokens >= amount {
        tokens := tokens - amount;
        return true, 0;
      }
      var needed := amount - tokens;
      if fillRate > 0.0 {
        retryAfter := Ceil(needed / fillRate);
        if retryAfter < 1 {
          retryAfter := 1;
        }
      } else {
        retryAfter := 60;
      }
      granted := false;
    }
  }

  // ---- Runs ----

  datatype Request = Request(time: real, amount: real)

  function After(b: Bucket, reqs: seq<Request>): Bucket
    decreases |reqs|
  {
    if reqs == [] then b else After(b.Consume(reqs[0].time, reqs[0].amount), reqs[1..])
  }

  function Answers(b: Bucket, reqs: seq<Request>): (r: seq<bool>)
    ensures |r| == |reqs|
    decreases |reqs|
  {
    if reqs == [] then []
    else [b.Granted(reqs[0].time, reqs[0].amount)] + Answers(b.Consume(reqs[0].time, reqs[0].amount), reqs[1..])
  }

  // Times never go back, from the given time on.
  predicate InOrder(from: real, reqs: seq<Request>)
    decreases |reqs|
  {
    reqs == [] || (from <= reqs[0].time && InOrder(reqs[0].time, reqs[1..]))
  }

  lemma {:induction false} RunSplits(b: Bucket, a: seq<Request>, c: seq<Request>)
    ensures After(b, a + c) == After(After(b, a), c)
    ensures Answers(b, a + c) == Answers(b, a) + Answers(After(b, a), c)
    decreases |a|
  {
    if a == [] {
      assert a + c == c;
    } else {
      assert (a + c)[0] == a[0] && (a + c)[1..] == a[1..] + c;
      RunSplits(b.Consume(a[0].time, a[0].amount), a[1..], c);
    }
  }

  // ---- A request is granted exactly when no window overflows ----

  // What each request so far took: nothing when it was refused.
  datatype Taken = Taken(time: real, amount: real)

  function History(b: Bucket, reqs: seq<Request>): (h: seq<Taken>)
    ensures |h| == |reqs|
    decreases |reqs|
  {
    if reqs == [] then []
    else
      var r := reqs[0];
      [Taken(r.time, TakenBy(b, r.time, r.amount))]
      + History(b.Consume(r.time, r.amount), reqs[1..])
  }

  function Sum(h: seq<Taken>): real {
    if h == [] then 0.0 else h[0].amount + Sum(h[1..])
  }

  // What the window from the i-th request up to now could still take.
  function Room(capacity: real, fillRate: real, h: seq<Taken>, i: nat, now: real): real
    requires i < |h|
  {
    capacity + (now - h[i].time) * fillRate - Sum(h[i..])
  }

  // The tokens left are the room of the tightest window.
  ghost predicate Tightest(b: Bucket, h: seq<Taken>) {
    && b.tokens <= b.capacity
    && (forall i | 0 <= i < |h| :: b.tokens <= Room(b.capacity, b.fillRate, h, i, b.last))
    && (b.tokens == b.capacity || exists i | 0 <= i < |h| :: b.tokens == Room(b.capacity, b.fillRate, h, i, b.last))
  }

  lemma {:induction false} SumAppend(h: seq<Taken>, e: Taken)
    ensures Sum(h + [e]) == Sum(h) + e.amount
  {
    if h == [] {
      assert h + [e] == [e];
    } else {
      assert (h + [e])[1..] == h[1..] + [e];
      SumAppend(h[1..], e);
    }
  }

  lemma SpansAdd(now: real, t: real, u: real, rate: real)
    ensures (now - u) * rate == (now - t) * rate + (t - u) * rate
  {
  }

  // Time passing widens every earlier window alike, and what is taken narrows it.
  lemma RoomAfter(capacity: real, fillRate: real, h: seq<Taken>, i: nat, t: real, e: Taken)
    requires i < |h|
    ensures Room(capacity, fillRate, h + [e], i, e.time)
         == Room(capacity, fillRate, h, i, t) + (e.time - t) * fillRate - e.amount
  {
    assert (h + [e])[i..] == h[i..] + [e];
    SumAppend(h[i..], e);
    SpansAdd(e.time, t, h[i].time, fillRate);
  }

  lemma RoomOfNew(capacity: real, fillRate: real, h: seq<Taken>, e: Taken)
    ensures Room(capacity, fillRate, h + [e], |h|, e.time) == capacity - e.amount
  {
    assert (h + [e])[|h|..] == [e] && [e][1..] == [];
    assert Sum([e]) == e.amount;
    assert (e.time - e.time) * fillRate == 0.0;
  }

  // What the step does to the room of every window, the refill taken as given.
  ghost predicate RoomsMove(b: Bucket, h: seq<Taken>, e: Taken, gain: real) {
    && (forall i | 0 <= i < |h| ::
          Room(b.capacity, b.fillRate, h + [e], i, e.time) == Room(b.capacity, b.fillRate, h, i, b.last) + gain - e.amount)
    && Room(b.capacity, b.fillRate, h + [e], |h|, e.time) == b.capacity - e.amount
  }

  lemma RoomsMoveTogether(b: Bucket, h: seq<Taken>, e: Taken) returns (gain: real)
    ensures gain == (e.time - b.last) * b.fillRate && RoomsMove(b, h, e, gain)
  {
    gain := (e.time - b.last) * b.fillRate;
    forall i | 0 <= i < |h|
      ensures Room(b.capacity, b.fillRate, h + [e], i, e.time)
           == Room(b.capacity, b.fillRate, h, i, b.last) + gain - e.amount
    {
      RoomAfter(b.capacity, b.fillRate, h, i, b.last, e);
    }
    RoomOfNew(b.capacity, b.fillRate, h, e);
  }

  lemma TightestMoves(b: Bucket, h: seq<Taken>, e: Taken, gain: real, tokens: real)
    requires Tightest(b, h) && gain >= 0.0 && e.amount >= 0.0 && RoomsMove(b, h, e, gain)
    requires tokens == Min(b.capacity, b.tokens + gain) - e.amount
    ensures Tightest(b.(tokens := tokens, last := e.time), h + [e])
  {
    if b.tokens + gain < b.capacity {
      var i :| 0 <= i < |h| && b.tokens == Room(b.capacity, b.fillRate, h, i, b.last);
      assert tokens == Room(b.capacity, b.fillRate, h + [e], i, e.time);
    } else {
      assert tokens == Room(b.capacity, b.fillRate, h + [e], |h|, e.time);
    }
  }

  function TakenBy(b: Bucket, now: real, amount: real): real {
    if b.Granted(now, amount) then amount else 0.0
  }

  lemma ProductIsNonNegative(x: real, y: real)
    requires x >= 0.0 && y >= 0.0
    ensures x * y >= 0.0
  {
  }

  lemma ProductIsMonotone(x: real, x': real, y: real)
    requires x <= x' && y >= 0.0
    ensures x * y <= x' * y
  {
    ProductIsNonNegative(x' - x, y);
  }

  lemma TokensAfter(b: Bucket, now: real, amount: real)
    requires b.fillRate >= 0.0 && now >= b.last
    ensures var gain := (now - b.last) * b.fillRate;
            && gain >= 0.0
            && b.Consume(now, amount).tokens == Min(b.capacity, b.tokens + gain) - TakenBy(b, now, amount)
            && (b.capacity >= 0.0 && b.tokens >= 0.0 ==> b.Consume(now, amount).tokens >= 0.0)
  {
    ProductIsNonNegative(now - b.last, b.fillRate);
  }

  lemma ConsumeKeepsTightest(b: Bucket, h: seq<Taken>, now: real, amount: real)
    requires Tightest(b, h) && b.fillRate >= 0.0 && now >= b.last && amount >= 0.0
    ensures Tightest(b.Consume(now, amount), h + [Taken(now, TakenBy(b, now, amount))])
  {
    var e := Taken(now, TakenBy(b, now, amount));
    var gain := RoomsMoveTogether(b, h, e);
    TokensAfter(b, now, amount);
    TightestMoves(b, h, e, gain, b.Consume(now, amount).tokens);
  }

  predicate NonNegative(reqs: seq<Request>) {
    forall r | r in reqs :: r.amount >= 0.0
  }

  lemma {:induction false} RunKeepsTightest(b: Bucket, h: seq<Taken>, reqs: seq<Request>)
    requires Tightest(b, h) && b.fillRate >= 0.0 && b.capacity >= 0.0 && b.tokens >= 0.0
    requires InOrder(b.last, reqs) && NonNegative(reqs)
    ensures Tightest(After(b, reqs), h + History(b, reqs))
    ensures After(b, reqs).tokens >= 0.0 && b.last <= After(b, reqs).last
    ensures After(b, reqs).capacity == b.capacity && After(b, reqs).fillRate == b.fillRate
    decreases |reqs|
  {
    if reqs == [] {
      assert h + [] == h;
    } else {
      var r := reqs[0];
      var b' := b.Consume(r.time, r.amount);
      var e := Taken(r.time, TakenBy(b, r.time, r.amount));
      assert r in reqs;
      TokensAfter(b, r.time, r.amount);
      ConsumeKeepsTightest(b, h, r.time, r.amount);
      RunKeepsTightest(b', h + [e], reqs[1..]);
      assert h + History(b, reqs) == (h + [e]) + History(b', reqs[1..]);
    }
  }

  lemma RoomLater(capacity: real, fillRate: real, h: seq<Taken>, i: nat, t: real, now: real, gain: real)
    requires i < |h| && gain == (now - t) * fillRate
    ensures Room(capacity, fillRate, h, i, now) == Room(capacity, fillRate, h, i, t) + gain
  {
    SpansAdd(now, t, h[i].time, fillRate);
  }

  ghost predicate FitsEveryWindow(capacity: real, fillRate: real, h: seq<Taken>, r: Request) {
    && r.amount <= capacity
    && forall i | 0 <= i < |h| :: r.amount <= Room(capacity, fillRate, h, i, r.time)
  }

  // The decision, the refill taken as given.
  lemma GrantedByGain(b: Bucket, h: seq<Taken>, r: Request, gain: real)
    requires Tightest(b, h) && gain >= 0.0 && b.Refilled(r.time) == Min(b.capacity, b.tokens + gain)
    requires forall i | 0 <= i < |h| ::
               Room(b.capacity, b.fillRate, h, i, r.time) == Room(b.capacity, b.fillRate, h, i, b.last) + gain
    ensures b.Granted(r.time, r.amount) <==> FitsEveryWindow(b.capacity, b.fillRate, h, r)
  {
    if b.tokens != b.capacity {
      var i :| 0 <= i < |h| && b.tokens == Room(b.capacity, b.fillRate, h, i, b.last);
      assert b.tokens + gain == Room(b.capacity, b.fillRate, h, i, r.time);
    }
  }

  lemma {:induction false} GrantedByRoom(b: Bucket, h: seq<Taken>, r: Request)
    requires Tightest(b, h) && b.fillRate >= 0.0 && b.last <= r.time
    ensures b.Granted(r.time, r.amount) <==> FitsEveryWindow(b.capacity, b.fillRate, h, r)
  {
    var gain := (r.time - b.last) * b.fillRate;
    ProductIsNonNegative(r.time - b.last, b.fillRate);
    forall i | 0 <= i < |h|
      ensures Room(b.capacity, b.fillRate, h, i, r.time) == Room(b.capacity, b.fillRate, h, i, b.last) + gain
    {
      RoomLater(b.capacity, b.fillRate, h, i, b.last, r.time, gain);
    }
    GrantedByGain(b, h, r, gain);
  }

  lemma {:induction false} HistoryTimes(b: Bucket, reqs: seq<Request>)
    ensures forall i | 0 <= i < |reqs| :: History(b, reqs)[i].time == reqs[i].time
    decreases |reqs|
  {
    if reqs == [] {
    } else {
      HistoryTimes(b.Consume(reqs[0].time, reqs[0].amount), reqs[1..]);
    }
  }

  lemma {:induction false} LastTime(b: Bucket, reqs: seq<Request>)
    ensures After(b, reqs).last == if reqs == [] then b.last else reqs[|reqs| - 1].time
    decreases |reqs|
  {
    if reqs == [] {
    } else {
      LastTime(b.Consume(reqs[0].time, reqs[0].amount), reqs[1..]);
    }
  }

  lemma {:induction false} InOrderSplits(from: real, reqs: seq<Request>, r: Request)
    requires InOrder(from, reqs + [r])
    ensures InOrder(from, reqs) && (if reqs == [] then from else reqs[|reqs| - 1].time) <= r.time
    decreases |reqs|
  {
    if reqs == [] {
      assert (reqs + [r])[0] == r;
    } else {
      assert (reqs + [r])[0] == reqs[0] && (reqs + [r])[1..] == reqs[1..] + [r];
      InOrderSplits(reqs[0].time, reqs[1..], r);
    }
  }

  lemma {:induction false} FullRunIsTight(capacity: real, fillRate: real, start: real, reqs: seq<Request>)
    requires capacity >= 0.0 && fillRate >= 0.0 && InOrder(start, reqs) && NonNegative(reqs)
    ensures var full := FullBucket(capacity, fillRate, start);
            var b := After(full, reqs);
            && Tightest(b, History(full, reqs)) && b.tokens >= 0.0
            && b.capacity == capacity && b.fillRate == fillRate
            && b.last == if reqs == [] then start else reqs[|reqs| - 1].time
  {
    var full := FullBucket(capacity, fillRate, start);
    RunKeepsTightest(full, [], reqs);
    LastTime(full, reqs);
    assert [] + History(full, reqs) == History(full, reqs);
  }

  // The bucket grants a request exactly when it fits every window that ends with it: the
  // capacity by itself, and from each earlier request on the capacity and the refill since.
  lemma {:induction false} GrantedIffEveryWindowFits(capacity: real, fillRate: real, start: real, reqs: seq<Request>, r: Request)
    requires capacity >= 0.0 && fillRate >= 0.0
    requires InOrder(start, reqs + [r]) && NonNegative(reqs + [r])
    ensures var full := FullBucket(capacity, fillRate, start);
            var h := History(full, reqs);
            Answers(full, reqs + [r])[|reqs|] <==> FitsEveryWindow(capacity, fillRate, h, r)
  {
    var full := FullBucket(capacity, fillRate, start);
    var h := History(full, reqs);
    InOrderSplits(start, reqs, r);
    FullRunIsTight(capacity, fillRate, start, reqs);
    RunSplits(full, reqs, [r]);
    GrantedByRoom(After(full, reqs), h, r);
  }

  // ---- The rate is bounded in every window ----

  // What was taken from time x up to and including y.
  function TakenWithin(h: seq<Taken>, x: real, y: real): real {
    if h == [] then 0.0 else (if x <= h[0].time <= y then h[0].amount else 0.0) + TakenWithin(h[1..], x, y)
  }

  predicate Ordered(h: seq<Taken>) {
    forall i, j | 0 <= i < j < |h| :: h[i].time <= h[j].time
  }

  lemma {:induction false} WithinIsASuffix(h: seq<Taken>, x: real, y: real) returns (i: nat)
    requires Ordered(h) && forall e | e in h :: e.time <= y
    ensures i <= |h| && TakenWithin(h, x, y) == Sum(h[i..]) && (i < |h| ==> x <= h[i].time)
  {
    if h == [] {
      i := 0;
    } else if h[0].time < x {
      var i' := WithinIsASuffix(h[1..], x, y);
      assert h[1..][i'..] == h[i' + 1..];
      i := i' + 1;
    } else {
      AllWithin(h, x, y);
      i := 0;
      assert h[0..] == h;
    }
  }

  lemma {:induction false} AllWithin(h: seq<Taken>, x: real, y: real)
    requires forall e | e in h :: x <= e.time <= y
    ensures TakenWithin(h, x, y) == Sum(h)
  {
    if h == [] {
    } else {
      AllWithin(h[1..], x, y);
    }
  }

  lemma {:induction false} NothingWithin(h: seq<Taken>, x: real, y: real)
    requires forall e | e in h :: e.time > y
    ensures TakenWithin(h, x, y) == 0.0
  {
    if h == [] {
    } else {
      NothingWithin(h[1..], x, y);
    }
  }

  lemma {:induction false} WithinSplits(a: seq<Taken>, c: seq<Taken>, x: real, y: real)
    ensures TakenWithin(a + c, x, y) == TakenWithin(a, x, y) + TakenWithin(c, x, y)
  {
    if a == [] {
      assert a + c == c;
    } else {
      assert (a + c)[1..] == a[1..] + c;
      WithinSplits(a[1..], c, x, y);
    }
  }

  lemma {:induction false} HistoryIsOrdered(b: Bucket, from: real, reqs: seq<Request>, y: real)
    requires InOrder(from, reqs) && forall i | 0 <= i < |reqs| :: reqs[i].time <= y
    ensures Ordered(History(b, reqs)) && forall e | e in History(b, reqs) :: e.time <= y
  {
    HistoryTimes(b, reqs);
    OrderedPrefix(from, reqs, |reqs|);
  }

  lemma RoomBoundsTheWindow(b: Bucket, h: seq<Taken>, i: nat, x: real, y: real)
    requires Tightest(b, h) && b.tokens >= 0.0 && b.fillRate >= 0.0 && b.last <= y
    requires i < |h| && x <= h[i].time
    ensures Sum(h[i..]) <= b.capacity + (y - x) * b.fillRate
  {
    assert b.tokens <= Room(b.capacity, b.fillRate, h, i, b.last);
    RoomFits(b.capacity, b.fillRate, h, i, b.last, y - x);
  }

  lemma RoomFits(capacity: real, fillRate: real, h: seq<Taken>, i: nat, now: real, d: real)
    requires i < |h| && 0.0 <= Room(capacity, fillRate, h, i, now) && now - h[i].time <= d && fillRate >= 0.0
    ensures Sum(h[i..]) <= capacity + d * fillRate
  {
    var room, span := Room(capacity, fillRate, h, i, now), now - h[i].time;
    assert room == capacity + span * fillRate - Sum(h[i..]);
    WiderWindowFits(capacity, Sum(h[i..]), span, d, fillRate);
  }

  lemma EmptyWindowFits(capacity: real, d: real, fillRate: real)
    requires capacity >= 0.0 && d >= 0.0 && fillRate >= 0.0
    ensures 0.0 <= capacity + d * fillRate
  {
    ProductIsNonNegative(d, fillRate);
  }

  lemma SuffixFits(b: Bucket, h: seq<Taken>, i: nat, x: real, y: real)
    requires Tightest(b, h) && b.tokens >= 0.0 && b.fillRate >= 0.0 && b.capacity >= 0.0 && x <= y
    requires i <= |h| && (i < |h| ==> x <= h[i].time && b.last <= y)
    ensures Sum(h[i..]) <= b.capacity + (y - x) * b.fillRate
  {
    if i < |h| {
      RoomBoundsTheWindow(b, h, i, x, y);
    } else {
      EmptyWindowFits(b.capacity, y - x, b.fillRate);
      assert h[i..] == [];
    }
  }

  lemma WiderWindowFits(capacity: real, sum: real, d: real, d': real, fillRate: real)
    requires 0.0 <= capacity + d * fillRate - sum && d <= d' && fillRate >= 0.0
    ensures sum <= capacity + d' * fillRate
  {
    ProductIsMonotone(d, d', fillRate);
  }

  // A bucket with its history, all of it no later than y.
  ghost predicate SettledBy(b: Bucket, h: seq<Taken>, y: real) {
    && Tightest(b, h) && b.tokens >= 0.0 && b.fillRate >= 0.0 && b.capacity >= 0.0
    && Ordered(h) && (forall e | e in h :: e.time <= y) && (h != [] ==> b.last <= y)
  }

  lemma {:induction false} WindowOfTightest(b: Bucket, h: seq<Taken>, x: real, y: real, bound: real)
    requires SettledBy(b, h, y) && x <= y && bound == b.capacity + (y - x) * b.fillRate
    ensures TakenWithin(h, x, y) <= bound
  {
    var i := WithinIsASuffix(h, x, y);
    SuffixFits(b, h, i, x, y);
  }

  lemma SameBound(b: Bucket, capacity: real, fillRate: real, d: real)
    requires b.capacity == capacity && b.fillRate == fillRate
    ensures b.capacity + d * b.fillRate == capacity + d * fillRate
  {
  }

  lemma {:induction false} FullRunSettles(capacity: real, fillRate: real, start: real, reqs: seq<Request>, y: real)
    returns (b: Bucket, h: seq<Taken>)
    requires capacity >= 0.0 && fillRate >= 0.0
    requires InOrder(start, reqs) && NonNegative(reqs) && forall i | 0 <= i < |reqs| :: reqs[i].time <= y
    ensures h == History(FullBucket(capacity, fillRate, start), reqs)
    ensures SettledBy(b, h, y) && b.capacity == capacity && b.fillRate == fillRate
  {
    var full := FullBucket(capacity, fillRate, start);
    HistoryIsOrdered(full, start, reqs, y);
    FullRunIsTight(capacity, fillRate, start, reqs);
    b, h := After(full, reqs), History(full, reqs);
    assert reqs != [] ==> reqs[|reqs| - 1].time <= y;
  }

  // The window bound once no request is later than the window, in the bucket's own terms.
  lemma {:induction false} WindowOfRun(capacity: real, fillRate: real, start: real, reqs: seq<Request>, x: real, y: real)
    returns (b: Bucket)
    requires capacity >= 0.0 && fillRate >= 0.0 && x <= y
    requires InOrder(start, reqs) && NonNegative(reqs) && forall i | 0 <= i < |reqs| :: reqs[i].time <= y
    ensures b.capacity == capacity && b.fillRate == fillRate
    ensures TakenWithin(History(FullBucket(capacity, fillRate, start), reqs), x, y) <= b.capacity + (y - x) * b.fillRate
  {
    var h;
    b, h := FullRunSettles(capacity, fillRate, start, reqs, y);
    WindowOfTightest(b, h, x, y, b.capacity + (y - x) * b.fillRate);
  }

  lemma {:induction false} WindowAtTheEnd(capacity: real, fillRate: real, start: real, reqs: seq<Request>,
                                          x: real, y: real)
    requires capacity >= 0.0 && fillRate >= 0.0 && x <= y
    requires InOrder(start, reqs) && NonNegative(reqs) && forall i | 0 <= i < |reqs| :: reqs[i].time <= y
    ensures TakenWithin(History(FullBucket(capacity, fillRate, start), reqs), x, y) <= capacity + (y - x) * fillRate
  {
    var b := WindowOfRun(capacity, fillRate, start, reqs, x, y);
    SameBound(b, capacity, fillRate, y - x);
  }

  lemma {:induction false} LaterRequestsDoNotCount(b: Bucket, reqs: seq<Request>, n: nat, x: real, y: real)
    requires n <= |reqs| && forall i | n <= i < |reqs| :: reqs[i].time > y
    ensures TakenWithin(History(b, reqs), x, y) == TakenWithin(History(b, reqs[..n]), x, y)
  {
    var a, c := reqs[..n], reqs[n..];
    assert reqs == a + c;
    HistorySplits(b, a, c);
    HistoryTimes(After(b, a), c);
    NothingWithin(History(After(b, a), c), x, y);
    WithinSplits(History(b, a), History(After(b, a), c), x, y);
  }

  // In any window of length d, at most the capacity and d seconds of refill are taken.
  lemma {:induction false} WindowIsBounded(capacity: real, fillRate: real, start: real, reqs: seq<Request>, x: real, y: real)
    requires capacity >= 0.0 && fillRate >= 0.0 && x <= y
    requires InOrder(start, reqs) && NonNegative(reqs)
    ensures TakenWithin(History(FullBucket(capacity, fillRate, start), reqs), x, y) <= capacity + (y - x) * fillRate
  {
    var n := FirstAfter(reqs, start, y);
    LaterRequestsDoNotCount(FullBucket(capacity, fillRate, start), reqs, n, x, y);
    OrderedPrefix(start, reqs, n);
    WindowAtTheEnd(capacity, fillRate, start, reqs[..n], x, y);
  }

  // How many requests come no later than y.
  lemma {:induction false} FirstAfter(reqs: seq<Request>, from: real, y: real) returns (n: nat)
    requires InOrder(from, reqs)
    ensures n <= |reqs|
    ensures forall i | 0 <= i < |reqs| :: reqs[i].time <= y <==> i < n
    decreases |reqs|
  {
    if reqs == [] || reqs[0].time > y {
      TimesFrom(from, reqs);
      n := 0;
      if reqs != [] {
        TimesFrom(reqs[0].time, reqs[1..]);
      }
    } else {
      var n' := FirstAfter(reqs[1..], reqs[0].time, y);
      n := n' + 1;
    }
  }

  lemma {:induction false} TimesFrom(from: real, reqs: seq<Request>)
    requires InOrder(from, reqs)
    ensures forall i | 0 <= i < |reqs| :: from <= reqs[i].time
    decreases |reqs|
  {
    if reqs == [] {
    } else {
      TimesFrom(reqs[0].time, reqs[1..]);
    }
  }

  lemma {:induction false} HistorySplits(b: Bucket, a: seq<Request>, c: seq<Request>)
    ensures History(b, a + c) == History(b, a) + History(After(b, a), c)
    decreases |a|
  {
    if a == [] {
      assert a + c == c;
    } else {
      assert (a + c)[0] == a[0] && (a + c)[1..] == a[1..] + c;
      HistorySplits(b.Consume(a[0].time, a[0].amount), a[1..], c);
    }
  }

  lemma {:induction false} OrderedPrefix(from: real, reqs: seq<Request>, n: nat)
    requires InOrder(from, reqs) && n <= |reqs|
    ensures InOrder(from, reqs[..n])
    ensures forall i, j | 0 <= i < j < n :: reqs[i].time <= reqs[j].time
    decreases |reqs|
  {
    if n == 0 {
    } else {
      TimesFrom(reqs[0].time, reqs[1..]);
      OrderedPrefix(reqs[0].time, reqs[1..], n - 1);
      assert reqs[..n][1..] == reqs[1..][..n - 1];
    }
  }

  // ---- Refused requests cost nothing ----

  // Two buckets that agree at every time from t on.
  ghost predicate SameFrom(b: Bucket, c: Bucket, t: real) {
    && b.capacity == c.capacity && b.fillRate == c.fillRate
    && forall now: real :: now >= t ==> b.Refilled(now) == c.Refilled(now)
  }

  // Refilling at two times is refilling once at the later one.
  lemma RefillInTwo(b: Bucket, now: real, later: real, first: real, second: real)
    requires b.fillRate >= 0.0 && b.last <= now <= later
    requires first == (now - b.last) * b.fillRate && second == (later - now) * b.fillRate
    ensures b.(tokens := b.Refilled(now), last := now).Refilled(later) == b.Refilled(later)
  {
    SpansAdd(later, now, b.last, b.fillRate);
    ProductIsNonNegative(later - now, b.fillRate);
    assert b.Refilled(later) == Min(b.capacity, b.tokens + (first + second));
    assert b.Refilled(now) == Min(b.capacity, b.tokens + first);
  }

  lemma RefusedIsSame(b: Bucket, now: real, amount: real)
    requires b.fillRate >= 0.0 && b.last <= now && !b.Granted(now, amount)
    ensures SameFrom(b.Consume(now, amount), b, now)
  {
    var c := b.Consume(now, amount);
    forall later: real | later >= now ensures c.Refilled(later) == b.Refilled(later) {
      RefillInTwo(b, now, later, (now - b.last) * b.fillRate, (later - now) * b.fillRate);
    }
  }

  // The entries marked to stay.
  function Marked<T>(xs: seq<T>, keep: seq<bool>): seq<T>
    requires |keep| == |xs|
  {
    if xs == [] then [] else (if keep[0] then [xs[0]] else []) + Marked(xs[1..], keep[1..])
  }

  // Only refused requests are left out.
  predicate DropsRefused(b: Bucket, reqs: seq<Request>, keep: seq<bool>) {
    |keep| == |reqs| && forall i | 0 <= i < |reqs| :: !keep[i] ==> !Answers(b, reqs)[i]
  }

  lemma DropsRefusedLater(b: Bucket, reqs: seq<Request>, keep: seq<bool>)
    requires reqs != [] && DropsRefused(b, reqs, keep)
    ensures DropsRefused(b.Consume(reqs[0].time, reqs[0].amount), reqs[1..], keep[1..])
    ensures !keep[0] ==> !b.Granted(reqs[0].time, reqs[0].amount)
  {
    var b' := b.Consume(reqs[0].time, reqs[0].amount);
    assert Answers(b, reqs) == [b.Granted(reqs[0].time, reqs[0].amount)] + Answers(b', reqs[1..]);
    forall i | 0 <= i < |reqs[1..]| && !keep[1..][i] ensures !Answers(b', reqs[1..])[i] {
      assert !keep[i + 1] && Answers(b, reqs)[i + 1] == Answers(b', reqs[1..])[i];
    }
  }

  lemma SameConsume(b: Bucket, c: Bucket, t: real, now: real, amount: real)
    requires SameFrom(b, c, t) && t <= now
    ensures b.Consume(now, amount) == c.Consume(now, amount) && b.Granted(now, amount) == c.Granted(now, amount)
  {
    assert b.Refilled(now) == c.Refilled(now);
  }

  lemma RefusedStaysSame(b: Bucket, c: Bucket, t: real, now: real, amount: real)
    requires SameFrom(b, c, t) && b.fillRate >= 0.0 && b.last <= t <= now && !b.Granted(now, amount)
    ensures SameFrom(b.Consume(now, amount), c, now) && b.Consume(now, amount).last == now
  {
    RefusedIsSame(b, now, amount);
  }

  lemma {:induction false} SameAnswersWithoutRefused(b: Bucket, c: Bucket, t: real, reqs: seq<Request>, keep: seq<bool>)
    requires b.fillRate >= 0.0 && SameFrom(b, c, t) && b.last <= t && InOrder(t, reqs)
    requires DropsRefused(b, reqs, keep)
    ensures Answers(c, Marked(reqs, keep)) == Marked(Answers(b, reqs), keep)
    decreases |reqs|
  {
    if reqs == [] {
    } else {
      var now, amount := reqs[0].time, reqs[0].amount;
      var b', rest := b.Consume(now, amount), Marked(reqs[1..], keep[1..]);
      DropsRefusedLater(b, reqs, keep);
      assert Answers(b, reqs)[1..] == Answers(b', reqs[1..]);
      if keep[0] {
        SameConsume(b, c, t, now, amount);
        SameAnswersWithoutRefused(b', b', now, reqs[1..], keep[1..]);
        assert Marked(reqs, keep)[1..] == rest;
      } else {
        RefusedStaysSame(b, c, t, now, amount);
        SameAnswersWithoutRefused(b', c, now, reqs[1..], keep[1..]);
        assert Marked(reqs, keep) == rest;
      }
    }
  }

  // Refused requests cost nothing: leaving out any of them, wherever they stand in the run,
  // changes none of the other answers.
  lemma RefusalsLeaveNoTrace(b: Bucket, reqs: seq<Request>, keep: seq<bool>)
    requires b.fillRate >= 0.0 && InOrder(b.last, reqs) && DropsRefused(b, reqs, keep)
    ensures Answers(b, Marked(reqs, keep)) == Marked(Answers(b, reqs), keep)
  {
    SameAnswersWithoutRefused(b, b, b.last, reqs, keep);
  }

  // ---- The promised wait ----

  lemma CeilIsLeast(x: real, n: int)
    ensures x <= Ceil(x) as real
    ensures x <= n as real ==> Ceil(x) <= n
  {
  }

  lemma WaitReaches(missing: real, f: real, wait: int)
    requires f > 0.0 && wait as real >= missing / f
    ensures wait as real * f >= missing
  {
    assert missing / f * f == missing;
  }

  lemma ShorterWaitMisses(missing: real, f: real, w: int)
    requires f > 0.0 && (w as real) < missing / f
    ensures w as real * f < missing
  {
    assert missing / f * f == missing;
  }

  lemma RefilledAfter(b: Bucket, now: real, amount: real, w: int)
    requires !b.Granted(now, amount)
    ensures b.Consume(now, amount).Refilled(now + w as real) == Min(b.capacity, b.Refilled(now) + w as real * b.fillRate)
  {
    assert now + w as real - now == w as real;
  }

  // A refused request asked again after the promised wait, with nobody else in between, is
  // granted exactly when the bucket refills at all and can ever hold that much; then no
  // shorter whole number of seconds would have been enough. Without refill it is a minute.
  lemma RetryAfterSuffices(b: Bucket, now: real, amount: real, w: int)
    requires !b.Granted(now, amount)
    ensures var b' := b.Consume(now, amount);
            var wait := b.RetryAfter(now, amount);
            && wait >= 1
            && (b'.Granted(now + wait as real, amount) <==> b.fillRate > 0.0 && amount <= b.capacity)
            && (b.fillRate > 0.0 && 1 <= w < wait ==> !b'.Granted(now + w as real, amount))
            && (b.fillRate <= 0.0 ==> wait == 60)
  {
    var wait, f := b.RetryAfter(now, amount), b.fillRate;
    var missing := amount - b.Refilled(now);
    RefilledAfter(b, now, amount, wait);
    RefilledAfter(b, now, amount, w);
    if f > 0.0 {
      CeilIsLeast(missing / f, w);
      WaitReaches(missing, f, wait);
      if 1 <= w < wait {
        ShorterWaitMisses(missing, f, w);
      }
    } else {
      assert wait as real * f <= 0.0;
    }
  }
}
