/**
 The token bucket that one key of the limiter owns: it starts full, refills at
 `rate` tokens per second up to `burst`, and each request takes one token or is
 denied.  Time and tokens are exact reals.
 */
module TokenBucket {
  import opened Options

  datatype Config = Config(rate: real, burst: nat)

  datatype Bucket = Bucket(tokens: real, last: real)

  ghost predicate Valid(cfg: Config) {
    cfg.rate >= 0.0
  }

  function Full(cfg: Config, now: real): Bucket {
    Bucket(cfg.burst as real, now)
  }

  /** Tokens that trickle in over `elapsed` seconds. */
  function Refill(cfg: Config, elapsed: real): real {
    cfg.rate * elapsed
  }

  function Available(cfg: Config, b: Bucket, now: real): real {
    var refilled := b.tokens + Refill(cfg, now - b.last);
    if refilled < cfg.burst as real then refilled else cfg.burst as real
  }

  function Take(cfg: Config, b: Bucket, now: real): (Bucket, bool) {
    var available := Available(cfg, b, now);
    if available >= 1.0 then (Bucket(available - 1.0, now), true)
    else (Bucket(available, now), false)
  }

  /** A bucket is created, full, by the first request for its key. */
  function Opened(cfg: Config, b: Option<Bucket>, now: real): Bucket {
    if b.Some? then b.value else Full(cfg, now)
  }

  // ----- One key over a whole run: the limiter that never forgets a bucket -----

  ghost predicate Ordered(times: seq<real>) {
    forall i, j :: 0 <= i < j < |times| ==> times[i] <= times[j]
  }

  ghost predicate NotBefore(times: seq<real>, now: real) {
    forall i :: 0 <= i < |times| ==> times[i] <= now
  }

  /** The bucket after requests at `times`. */
  function After(cfg: Config, times: seq<real>): Option<Bucket> {
    if times == [] then None
    else
      var t := times[|times| - 1];
      Some(Take(cfg, Opened(cfg, After(cfg, times[..|times| - 1]), t), t).0)
  }

  /** Tokens available to a request at `now` that follows requests at `times`. */
  function Ready(cfg: Config, times: seq<real>, now: real): real {
    Available(cfg, Opened(cfg, After(cfg, times), now), now)
  }

  /** The answer to a request at `now` that follows requests at `times`. */
  predicate Answer(cfg: Config, times: seq<real>, now: real) {
    Take(cfg, Opened(cfg, After(cfg, times), now), now).1
  }

  /** Requests granted from position `from` on. */
  function Grants(cfg: Config, times: seq<real>, from: nat): nat {
    if |times| <= from then 0
    else
      var before := times[..|times| - 1];
      Grants(cfg, before, from) + if Answer(cfg, before, times[|times| - 1]) then 1 else 0
  }

  /** Requests granted at a time within [a, b]. */
  function GrantsIn(cfg: Config, times: seq<real>, a: real, b: real): nat {
    if times == [] then 0
    else
      var before, t := times[..|times| - 1], times[|times| - 1];
      GrantsIn(cfg, before, a, b) + if a <= t <= b && Answer(cfg, before, t) then 1 else 0
  }

  lemma RefillAdds(cfg: Config, t: real, u: real, v: real)
    ensures Refill(cfg, v - t) == Refill(cfg, u - t) + Refill(cfg, v - u)
  {
  }

  lemma RefillPositive(cfg: Config, t: real, u: real)
    requires Valid(cfg) && t <= u
    ensures Refill(cfg, u - t) >= 0.0
  {
  }

  /** One request later: what the previous request left, refilled and capped. */
  lemma ReadyStep(cfg: Config, times: seq<real>, now: real)
    requires times != []
    ensures var before, t := times[..|times| - 1], times[|times| - 1];
            var left := Ready(cfg, before, t) - (if Answer(cfg, before, t) then 1.0 else 0.0);
            var refilled := left + Refill(cfg, now - t);
            && Ready(cfg, times, now) == (if refilled < cfg.burst as real then refilled else cfg.burst as real)
            && (Answer(cfg, before, t) <==> Ready(cfg, before, t) >= 1.0)
  {
    hide Refill;
  }

  lemma ReadyFresh(cfg: Config, now: real)
    ensures Ready(cfg, [], now) == cfg.burst as real
  {
    assert now - now == 0.0;
  }

  lemma {:induction false} ReadyNonNegative(cfg: Config, times: seq<real>, now: real)
    requires Valid(cfg) && Ordered(times) && NotBefore(times, now)
    ensures 0.0 <= Ready(cfg, times, now) <= cfg.burst as real
  {
    if times == [] {
      ReadyFresh(cfg, now);
    } else {
      var before, t := times[..|times| - 1], times[|times| - 1];
      ReadyNonNegative(cfg, before, t);
      RefillPositive(cfg, t, now);
      ReadyStep(cfg, times, now);
      hide *;
    }
  }

  /** The start of the window that opens at position `j`; the last window opens now. */
  function Opens(times: seq<real>, now: real, j: nat): real
    requires j <= |times|
  {
    if j < |times| then times[j] else now
  }

  /** What the window opening at position `j` leaves for one more request at `now`. */
  function Room(cfg: Config, times: seq<real>, now: real, j: nat): real
    requires j <= |times|
  {
    cfg.burst as real + Refill(cfg, now - Opens(times, now, j)) - Grants(cfg, times, j) as real
  }

  lemma RoomStep(cfg: Config, times: seq<real>, now: real, j: nat)
    requires j < |times|
    ensures var before, t := times[..|times| - 1], times[|times| - 1];
            Room(cfg, times, now, j) == Room(cfg, before, t, j) + Refill(cfg, now - t)
                                        - if Answer(cfg, before, t) then 1.0 else 0.0
  {
    var before, t := times[..|times| - 1], times[|times| - 1];
    assert Opens(times, now, j) == Opens(before, t, j);
    RefillAdds(cfg, Opens(times, now, j), t, now);
    hide Refill, Answer;
  }

  lemma RoomNow(cfg: Config, times: seq<real>, now: real)
    ensures Room(cfg, times, now, |times|) == cfg.burst as real
  {
    assert now - Opens(times, now, |times|) == 0.0;
  }

  /** The bucket holds exactly the room of the tightest window. */
  lemma {:induction false} ReadyIsTightestRoom(cfg: Config, times: seq<real>, now: real) returns (tightest: nat)
    requires Valid(cfg) && Ordered(times) && NotBefore(times, now)
    ensures forall j: nat :: j <= |times| ==> Ready(cfg, times, now) <= Room(cfg, times, now, j)
    ensures tightest <= |times| && Ready(cfg, times, now) == Room(cfg, times, now, tightest)
  {
    tightest := |times|;
    RoomNow(cfg, times, now);
    if times == [] {
      ReadyFresh(cfg, now);
    } else {
      var before, t := times[..|times| - 1], times[|times| - 1];
      var k := ReadyIsTightestRoom(cfg, before, t);
      ReadyStep(cfg, times, now);
      hide Ready, Room, Answer, Refill;
      forall j: nat | j < |times|
        ensures Ready(cfg, times, now) <= Room(cfg, times, now, j)
      {
        RoomStep(cfg, times, now, j);
      }
      RoomStep(cfg, times, now, k);
      if Ready(cfg, times, now) < cfg.burst as real {
        tightest := k;
      }
    }
  }

  /** One more grant now keeps the window that opens at position `j` within burst + rate * T. */
  predicate HasRoom(cfg: Config, times: seq<real>, now: real, j: nat)
    requires j <= |times|
  {
    Grants(cfg, times, j) as real + 1.0 <= cfg.burst as real + cfg.rate * (now - Opens(times, now, j))
  }

  lemma HasRoomMeans(cfg: Config, times: seq<real>, now: real, j: nat)
    requires j <= |times|
    ensures HasRoom(cfg, times, now, j) <==> Room(cfg, times, now, j) >= 1.0
  {
    hide Grants, Opens;
  }

  /**
   The bucket is the most generous limiter that keeps every window within
   burst + rate * T: it grants a request exactly when no window that ends with
   this request would then exceed its bound.
   */
  lemma GrantedIffEveryWindowHasRoom(cfg: Config, times: seq<real>, now: real)
    requires Valid(cfg) && Ordered(times) && NotBefore(times, now)
    ensures Answer(cfg, times, now) <==> forall j: nat :: j <= |times| ==> HasRoom(cfg, times, now, j)
  {
    var k := ReadyIsTightestRoom(cfg, times, now);
    assert Answer(cfg, times, now) <==> Ready(cfg, times, now) >= 1.0;
    hide Ready, Answer, HasRoom, Room;
    HasRoomMeans(cfg, times, now, k);
    forall j: nat | j <= |times| && Answer(cfg, times, now)
      ensures HasRoom(cfg, times, now, j)
    {
      HasRoomMeans(cfg, times, now, j);
    }
  }

  /** Grants so far and tokens left never exceed what the window has let in. */
  lemma {:induction false} WindowPotential(cfg: Config, times: seq<real>, a: real, b: real, now: real)
    requires Valid(cfg) && Ordered(times) && NotBefore(times, now) && a <= now
    ensures GrantsIn(cfg, times, a, b) as real + Ready(cfg, times, now)
            <= cfg.burst as real + Refill(cfg, now - a)
  {
    RefillPositive(cfg, a, now);
    if times == [] {
      ReadyFresh(cfg, now);
    } else {
      var before, t := times[..|times| - 1], times[|times| - 1];
      ReadyStep(cfg, times, now);
      ReadyNonNegative(cfg, times, now);
      hide Ready, Answer, Refill;
      if t < a {
        NothingBefore(cfg, times, a, b);
      } else {
        WindowPotential(cfg, before, a, b, t);
        RefillAdds(cfg, a, t, now);
      }
    }
  }

  lemma GrantsInOneMore(cfg: Config, times: seq<real>, t: real, a: real, b: real)
    ensures GrantsIn(cfg, times + [t], a, b)
            == GrantsIn(cfg, times, a, b) + if a <= t <= b && Answer(cfg, times, t) then 1 else 0
  {
    assert (times + [t])[..|times|] == times;
    hide Answer;
  }

  lemma {:induction false} NothingBefore(cfg: Config, times: seq<real>, a: real, b: real)
    requires forall i :: 0 <= i < |times| ==> times[i] < a
    ensures GrantsIn(cfg, times, a, b) == 0
  {
    if times != [] {
      NothingBefore(cfg, times[..|times| - 1], a, b);
    }
  }

  lemma {:induction false} WindowWithin(cfg: Config, times: seq<real>, a: real, b: real)
    requires Valid(cfg) && Ordered(times) && a <= b
    ensures GrantsIn(cfg, times, a, b) as real <= cfg.burst as real + Refill(cfg, b - a)
  {
    RefillPositive(cfg, a, b);
    hide Ready, Answer, Refill;
    if times != [] {
      var before, t := times[..|times| - 1], times[|times| - 1];
      if t > b {
        WindowWithin(cfg, before, a, b);
      } else {
        WindowPotential(cfg, times, a, b, b);
        ReadyNonNegative(cfg, times, b);
      }
    }
  }

  /** At most burst + rate * T requests are granted in any window of length T. */
  lemma WindowBound(cfg: Config, times: seq<real>, a: real, b: real)
    requires Valid(cfg) && Ordered(times) && a <= b
    ensures GrantsIn(cfg, times, a, b) as real <= cfg.burst as real + cfg.rate * (b - a)
  {
    hide GrantsIn;
    WindowWithin(cfg, times, a, b);
  }
}
