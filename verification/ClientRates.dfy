/** The dispatcher of src/api/rate_limiter.py: one token bucket per client, and what that
    means for the calls of one client among those of all others. */
module ClientRates {
  import opened RateLimiter

  type Client = string

  datatype Call = Call(client: Client, time: real)

  // A client's bucket is created full by its first call; each call asks for one token.
  function BucketOf(buckets: map<Client, Bucket>, capacity: real, fillRate: real, call: Call): Bucket {
    if call.client in buckets then buckets[call.client] else FullBucket(capacity, fillRate, call.time)
  }

  // The answers the calls of one client get.
  function DispatchFor(buckets: map<Client, Bucket>, capacity: real, fillRate: real, calls: seq<Call>, k: Client): seq<bool>
    decreases |calls|
  {
    if calls == [] then []
    else
      var call := calls[0];
      var b := BucketOf(buckets, capacity, fillRate, call);
      (if call.client == k then [b.Granted(call.time, 1.0)] else [])
      + DispatchFor(buckets[call.client := b.Consume(call.time, 1.0)], capacity, fillRate, calls[1..], k)
  }

  // A client's own calls, as requests for one token.
  function OwnRequests(calls: seq<Call>, k: Client): (r: seq<Request>)
    ensures forall q | q in r :: q.amount == 1.0
  {
    if calls == [] then []
    else (if calls[0].client == k then [Request(calls[0].time, 1.0)] else []) + OwnRequests(calls[1..], k)
  }

  lemma {:induction false} KnownClientKeepsItsBucket(buckets: map<Client, Bucket>, capacity: real, fillRate: real,
                                                     calls: seq<Call>, k: Client)
    requires k in buckets
    ensures DispatchFor(buckets, capacity, fillRate, calls, k) == Answers(buckets[k], OwnRequests(calls, k))
    decreases |calls|
  {
    if calls == [] {
    } else {
      var call := calls[0];
      var b := BucketOf(buckets, capacity, fillRate, call);
      KnownClientKeepsItsBucket(buckets[call.client := b.Consume(call.time, 1.0)], capacity, fillRate, calls[1..], k);
      OwnRequestsFirst(calls, k);
    }
  }

  lemma OwnRequestsFirst(calls: seq<Call>, k: Client)
    requires calls != []
    ensures calls[0].client == k ==>
              OwnRequests(calls, k) != [] && OwnRequests(calls, k)[0] == Request(calls[0].time, 1.0)
              && OwnRequests(calls, k)[1..] == OwnRequests(calls[1..], k)
    ensures calls[0].client != k ==> OwnRequests(calls, k) == OwnRequests(calls[1..], k)
  {
  }

  // Whatever the other clients do, a client is answered as by one bucket of its own, filled
  // when it first calls.
  lemma {:induction false} ClientHasOneBucket(buckets: map<Client, Bucket>, capacity: real, fillRate: real,
                                              calls: seq<Call>, k: Client)
    requires k !in buckets
    ensures var own := OwnRequests(calls, k);
            DispatchFor(buckets, capacity, fillRate, calls, k)
            == if own == [] then [] else Answers(FullBucket(capacity, fillRate, own[0].time), own)
    decreases |calls|
  {
    if calls == [] {
    } else {
      var call := calls[0];
      var b := BucketOf(buckets, capacity, fillRate, call);
      var buckets' := buckets[call.client := b.Consume(call.time, 1.0)];
      OwnRequestsFirst(calls, k);
      if call.client == k {
        KnownClientKeepsItsBucket(buckets', capacity, fillRate, calls[1..], k);
      } else {
        ClientHasOneBucket(buckets', capacity, fillRate, calls[1..], k);
      }
    }
  }

  function CallsOf(calls: seq<Call>, k: Client): seq<Call> {
    if calls == [] then [] else (if calls[0].client == k then [calls[0]] else []) + CallsOf(calls[1..], k)
  }

  lemma {:induction false} OwnRequestsOfOwnCalls(calls: seq<Call>, k: Client)
    ensures OwnRequests(CallsOf(calls, k), k) == OwnRequests(calls, k)
  {
    if calls == [] {
    } else {
      OwnRequestsOfOwnCalls(calls[1..], k);
      OwnRequestsFirst(calls, k);
      if calls[0].client == k {
        assert CallsOf(calls, k)[1..] == CallsOf(calls[1..], k);
        OwnRequestsFirst(CallsOf(calls, k), k);
      } else {
        assert CallsOf(calls, k) == CallsOf(calls[1..], k);
      }
    }
  }

  // So what a client is answered depends on its own calls only.
  lemma ClientsDoNotInterfere(buckets: map<Client, Bucket>, others: map<Client, Bucket>,
                              capacity: real, fillRate: real, calls: seq<Call>, k: Client)
    requires k in buckets <==> k in others
    requires k in buckets ==> buckets[k] == others[k]
    ensures DispatchFor(buckets, capacity, fillRate, calls, k)
         == DispatchFor(others, capacity, fillRate, CallsOf(calls, k), k)
  {
    OwnRequestsOfOwnCalls(calls, k);
    if k in buckets {
      KnownClientKeepsItsBucket(buckets, capacity, fillRate, calls, k);
      KnownClientKeepsItsBucket(others, capacity, fillRate, CallsOf(calls, k), k);
    } else {
      ClientHasOneBucket(buckets, capacity, fillRate, calls, k);
      ClientHasOneBucket(others, capacity, fillRate, CallsOf(calls, k), k);
    }
  }

  // ---- Counting what was granted ----

  function Trues(answers: seq<bool>): nat {
    if answers == [] then 0 else (if answers[0] then 1 else 0) + Trues(answers[1..])
  }

  // The requests granted from time x up to and including y.
  function GrantedWithin(reqs: seq<Request>, answers: seq<bool>, x: real, y: real): nat
    requires |answers| == |reqs|
  {
    if reqs == [] then 0
    else (if answers[0] && x <= reqs[0].time <= y then 1 else 0) + GrantedWithin(reqs[1..], answers[1..], x, y)
  }

  lemma {:induction false} TakenIsGranted(b: Bucket, reqs: seq<Request>, x: real, y: real)
    requires forall q | q in reqs :: q.amount == 1.0
    ensures TakenWithin(History(b, reqs), x, y) == GrantedWithin(reqs, Answers(b, reqs), x, y) as real
    decreases |reqs|
  {
    if reqs == [] {
    } else {
      var r := reqs[0];
      var b' := b.Consume(r.time, r.amount);
      assert r in reqs && forall q | q in reqs[1..] :: q in reqs;
      TakenIsGranted(b', reqs[1..], x, y);
      assert History(b, reqs)[1..] == History(b', reqs[1..]) && Answers(b, reqs)[1..] == Answers(b', reqs[1..]);
    }
  }

  lemma {:induction false} SumIsTrues(b: Bucket, reqs: seq<Request>, i: nat)
    requires i <= |reqs| && forall q | q in reqs :: q.amount == 1.0
    ensures Sum(History(b, reqs)[i..]) == Trues(Answers(b, reqs)[i..]) as real
    decreases |reqs|, |reqs| - i
  {
    if reqs == [] {
    } else {
      var r := reqs[0];
      var b' := b.Consume(r.time, r.amount);
      assert r in reqs && forall q | q in reqs[1..] :: q in reqs;
      if i > 0 {
        SumIsTrues(b', reqs[1..], i - 1);
        assert History(b, reqs)[i..] == History(b', reqs[1..])[i - 1..];
        assert Answers(b, reqs)[i..] == Answers(b', reqs[1..])[i - 1..];
      } else {
        SumIsTrues(b', reqs[1..], 0);
        var h, a := History(b, reqs), Answers(b, reqs);
        assert h[0..] == h && a[0..] == a;
        assert h[1..] == History(b', reqs[1..])[0..] && a[1..] == Answers(b', reqs[1..])[0..];
      }
    }
  }

  // ---- Main results ----

  predicate Chronological(calls: seq<Call>) {
    forall i, j | 0 <= i < j < |calls| :: calls[i].time <= calls[j].time
  }

  lemma {:induction false} OwnInOrder(from: real, calls: seq<Call>, k: Client)
    requires Chronological(calls) && forall c | c in calls :: from <= c.time
    ensures InOrder(from, OwnRequests(calls, k))
    decreases |calls|
  {
    if calls == [] {
    } else {
      OwnRequestsFirst(calls, k);
      assert calls[0] in calls;
      forall c | c in calls[1..] ensures calls[0].time <= c.time && from <= c.time {
        var i :| 0 <= i < |calls[1..]| && calls[1..][i] == c;
        assert calls[i + 1] == c && calls[i + 1] in calls;
      }
      OwnInOrder(if calls[0].client == k then calls[0].time else from, calls[1..], k);
    }
  }

  lemma OwnStartInOrder(calls: seq<Call>, k: Client)
    requires Chronological(calls) && OwnRequests(calls, k) != []
    ensures InOrder(OwnRequests(calls, k)[0].time, OwnRequests(calls, k))
  {
    forall c | c in calls ensures calls[0].time <= c.time {
    }
    OwnInOrder(calls[0].time, calls, k);
  }

  // However the calls of all clients are interleaved, no client is granted more in a window
  // of length d than the capacity and d seconds of refill.
  lemma ClientRateIsBounded(capacity: real, fillRate: real, calls: seq<Call>, k: Client, x: real, y: real)
    requires capacity >= 0.0 && fillRate >= 0.0 && x <= y && Chronological(calls)
    ensures var own, answers := OwnRequests(calls, k), DispatchFor(map[], capacity, fillRate, calls, k);
            && |answers| == |own|
            && GrantedWithin(own, answers, x, y) as real <= capacity + (y - x) * fillRate
  {
    var own := OwnRequests(calls, k);
    ClientHasOneBucket(map[], capacity, fillRate, calls, k);
    var refill := (y - x) * fillRate;
    ProductIsNonNegative(y - x, fillRate);
    if own == [] {
      NothingFits(capacity, refill);
    } else {
      OwnStartInOrder(calls, k);
      OwnRateIsBounded(capacity, fillRate, own, x, y, refill);
    }
  }

  lemma NothingFits(capacity: real, refill: real)
    requires capacity >= 0.0 && refill >= 0.0
    ensures 0 as real <= capacity + refill
  {
  }

  lemma OwnRateIsBounded(capacity: real, fillRate: real, own: seq<Request>, x: real, y: real, refill: real)
    requires capacity >= 0.0 && fillRate >= 0.0 && x <= y && refill == (y - x) * fillRate
    requires own != [] && InOrder(own[0].time, own) && forall q | q in own :: q.amount == 1.0
    ensures var full := FullBucket(capacity, fillRate, own[0].time);
            GrantedWithin(own, Answers(full, own), x, y) as real <= capacity + refill
  {
    WindowIsBounded(capacity, fillRate, own[0].time, own, x, y);
    TakenIsGranted(FullBucket(capacity, fillRate, own[0].time), own, x, y);
  }

  lemma {:induction false} OwnRequestsSnoc(calls: seq<Call>, call: Call)
    ensures OwnRequests(calls + [call], call.client) == OwnRequests(calls, call.client) + [Request(call.time, 1.0)]
    decreases |calls|
  {
    if calls == [] {
      assert [] + [call] == [call];
    } else {
      assert (calls + [call])[1..] == calls[1..] + [call];
      OwnRequestsSnoc(calls[1..], call);
    }
  }

  // The client's calls granted since the i-th, this one included, fit the window they span.
  predicate Fits(capacity: real, fillRate: real, own: seq<Request>, answers: seq<bool>, i: nat, now: real)
    requires i < |own| == |answers|
  {
    (Trues(answers[i..]) + 1) as real <= capacity + (now - own[i].time) * fillRate
  }

  ghost predicate FitAll(capacity: real, fillRate: real, own: seq<Request>, answers: seq<bool>, now: real)
    requires |answers| == |own|
  {
    1.0 <= capacity && forall i | 0 <= i < |own| :: Fits(capacity, fillRate, own, answers, i, now)
  }

  lemma WindowsFit(capacity: real, fillRate: real, b: Bucket, own: seq<Request>, now: real)
    requires (forall q | q in own :: q.amount == 1.0) && FitsEveryWindow(capacity, fillRate, History(b, own), Request(now, 1.0))
    ensures FitAll(capacity, fillRate, own, Answers(b, own), now)
  {
    forall i | 0 <= i < |own| ensures Fits(capacity, fillRate, own, Answers(b, own), i, now) {
      RoomByCount(capacity, fillRate, b, own, i, now);
    }
  }

  lemma CountsFit(capacity: real, fillRate: real, b: Bucket, own: seq<Request>, now: real)
    requires (forall q | q in own :: q.amount == 1.0) && FitAll(capacity, fillRate, own, Answers(b, own), now)
    ensures FitsEveryWindow(capacity, fillRate, History(b, own), Request(now, 1.0))
  {
    forall i | 0 <= i < |own| ensures 1.0 <= Room(capacity, fillRate, History(b, own), i, now) {
      RoomByCount(capacity, fillRate, b, own, i, now);
    }
  }

  lemma RoomByCount(capacity: real, fillRate: real, b: Bucket, own: seq<Request>, i: nat, now: real)
    requires i < |own| && forall q | q in own :: q.amount == 1.0
    ensures 1.0 <= Room(capacity, fillRate, History(b, own), i, now)
       <==> Fits(capacity, fillRate, own, Answers(b, own), i, now)
  {
    HistoryTimes(b, own);
    SumIsTrues(b, own, i);
  }

  // And a call is granted exactly when one call fits the capacity and, from each earlier call
  // of the same client on, what was granted and this call fit the capacity and the refill since.
  lemma ClientGrantedIffEveryWindowFits(capacity: real, fillRate: real, calls: seq<Call>, call: Call)
    requires capacity >= 0.0 && fillRate >= 0.0 && Chronological(calls + [call])
    ensures var own, answers := OwnRequests(calls, call.client), DispatchFor(map[], capacity, fillRate, calls, call.client);
            var after := DispatchFor(map[], capacity, fillRate, calls + [call], call.client);
            && |answers| == |own| && |after| == |own| + 1
            && (after[|own|] <==>
                FitAll(capacity, fillRate, own, answers, call.time))
  {
    var k, r := call.client, Request(call.time, 1.0);
    var own := OwnRequests(calls, k);
    ClientHasOneBucket(map[], capacity, fillRate, calls, k);
    ClientHasOneBucket(map[], capacity, fillRate, calls + [call], k);
    OwnRequestsSnoc(calls, call);
    OwnStartInOrder(calls + [call], k);
    var start := (own + [r])[0].time;
    GrantedIffEveryWindowFits(capacity, fillRate, start, own, r);
    var full := FullBucket(capacity, fillRate, start);
    if FitsEveryWindow(capacity, fillRate, History(full, own), r) {
      WindowsFit(capacity, fillRate, full, own, call.time);
    }
    if FitAll(capacity, fillRate, own, Answers(full, own), call.time) {
      CountsFit(capacity, fillRate, full, own, call.time);
    }
  }
}
