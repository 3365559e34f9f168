/** Token buckets which limit the bytes and requests of a disk. Models
    `Bucket` and `Throttle` of src/lingcore/src/devices/virtio/block.rs over
    real numbers, with the clock passed in. */
module Throttle {
  import opened Wrappers

  function Least(a: real, b: real): real {
    if a <= b then a else b
  }

  // ---- One bucket ----

  /** A bucket refilled at `rate` tokens a second, holding at most one
      second's worth, `held` as of time `filled`. */
  datatype Tokens = Tokens(rate: nat, held: real, filled: real)

  datatype Taken = Taken(tokens: Tokens, wait: Option<real>)

  ghost predicate Good(b: Tokens) {
    b.rate > 0 && b.held <= b.rate as real
  }

  /** Tokens earned in `span` seconds. */
  function Earned(rate: nat, span: real): real {
    span * rate as real
  }

  function Refill(b: Tokens, now: real): Tokens {
    Tokens(b.rate, Least(b.held + Earned(b.rate, now - b.filled), b.rate as real), now)
  }

  /** Tokens a cost needs to be held, at most one second's worth. */
  function Want(b: Tokens, cost: nat): real {
    Least(cost as real, b.rate as real)
  }

  function TakeTokens(b: Tokens, cost: nat, now: real): Taken
    requires b.rate > 0
  {
    var full := Refill(b, now);
    if Want(b, cost) > full.held
    then Taken(full, Some((Want(b, cost) - full.held) / b.rate as real))
    else Taken(full.(held := full.held - cost as real), None)
  }

  function Refund(b: Tokens, cost: nat): Tokens {
    b.(held := Least(b.held + cost as real, b.rate as real))
  }

  /** A second earns the rate, and earnings are in proportion to time. */
  lemma EarnedIs(rate: nat, span: real, k: real)
    ensures Earned(rate, 1.0) == rate as real && Earned(rate, k * span) == k * Earned(rate, span)
  {
  }

  lemma EarnedAdds(rate: nat, x: real, y: real)
    ensures Earned(rate, x + y) == Earned(rate, x) + Earned(rate, y)
  {
  }

  lemma EarnedGrows(rate: nat, x: real, y: real)
    requires x <= y
    ensures Earned(rate, x) <= Earned(rate, y)
    ensures rate > 0 && x < y ==> Earned(rate, x) < Earned(rate, y)
    ensures Earned(rate, 0.0) == 0.0
  {
    EarnedAdds(rate, x, y - x);
    assert x + (y - x) == y;
  }

  /** What a bucket grants. With `h` tokens held by now it grants a cost it
      holds, and any cost when full, and is left with `h` less the cost. A
      refusal leaves `h`, and the wait earns exactly what is missing to the cost
      or to a full bucket. */
  lemma GrantIsExact(b: Tokens, cost: nat, now: real)
    requires Good(b)
    ensures var h := Least(b.held + Earned(b.rate, now - b.filled), b.rate as real);
            var taken := TakeTokens(b, cost, now);
            && taken.tokens.rate == b.rate && taken.tokens.filled == now
            && (taken.wait.None? <==> cost as real <= h || h == b.rate as real)
            && (taken.wait.None? ==> taken.tokens.held == h - cost as real)
            && (taken.wait.Some? ==>
                  && taken.tokens.held == h && taken.wait.value > 0.0
                  && h + Earned(b.rate, taken.wait.value) == if cost <= b.rate then cost as real else b.rate as real)
  {
    if TakeTokens(b, cost, now).wait.Some? {
      WaitEarnsShortage(b, cost, now);
      var wait := TakeTokens(b, cost, now).wait.value;
      if wait <= 0.0 {
        EarnedGrows(b.rate, wait, 0.0);
      }
    }
    hide Earned;
    assert cost <= b.rate <==> cost as real <= b.rate as real;
  }

  /** A bucket which holds the cost never refuses it. */
  lemma HeldIsGranted(b: Tokens, cost: nat, now: real)
    requires Good(b) && b.filled <= now && cost as real <= b.held
    ensures TakeTokens(b, cost, now).wait.None?
  {
    GrantIsExact(b, cost, now);
    EarnedGrows(b.rate, 0.0, now - b.filled);
    hide TakeTokens, Earned;
  }

  /** Refilling in between changes nothing later. */
  lemma RefillTwice(b: Tokens, t: real, u: real)
    requires Good(b) && b.filled <= t <= u
    ensures Refill(Refill(b, t), u) == Refill(b, u)
  {
    EarnedAdds(b.rate, t - b.filled, u - t);
    assert (t - b.filled) + (u - t) == u - b.filled;
    EarnedGrows(b.rate, 0.0, u - t);
    hide Earned;
  }

  /** Take granted when the bucket is as it was at `now` and time is `u`. */
  ghost predicate Grants(b: Tokens, cost: nat, u: real)
    requires b.rate > 0
  {
    TakeTokens(b, cost, u).wait.None?
  }

  lemma WaitEarnsShortage(b: Tokens, cost: nat, now: real)
    requires Good(b) && TakeTokens(b, cost, now).wait.Some?
    ensures var taken := TakeTokens(b, cost, now);
            Earned(b.rate, taken.wait.value) == Want(b, cost) - taken.tokens.held
  {
    var rate, short := b.rate as real, Want(b, cost) - Refill(b, now).held;
    assert short / rate * rate == short;
  }

  /** The wait returned with a refusal is exact: with no other take, the cost
      is refused until it has passed and granted from then on. */
  lemma WaitIsExact(b: Tokens, cost: nat, now: real, u: real)
    requires Good(b) && b.filled <= now <= u
    requires TakeTokens(b, cost, now).wait.Some?
    ensures var taken := TakeTokens(b, cost, now);
            Grants(taken.tokens, cost, u) <==> now + taken.wait.value <= u
  {
    var wait := TakeTokens(b, cost, now).wait.value;
    WaitEarnsShortage(b, cost, now);
    if now + wait <= u {
      EarnedGrows(b.rate, wait, u - now);
    } else {
      EarnedGrows(b.rate, u - now, wait);
    }
    hide Earned;
  }

  // ---- Rate bound ----

  datatype Call = Call(cost: nat, at: real)

  ghost predicate Timely(b: Tokens, calls: seq<Call>)
    decreases |calls|
  {
    calls != [] ==> b.rate > 0 && b.filled <= calls[0].at &&
                    Timely(TakeTokens(b, calls[0].cost, calls[0].at).tokens, calls[1..])
  }

  function AfterCalls(b: Tokens, calls: seq<Call>): Tokens
    requires b.rate > 0
    decreases |calls|
  {
    if calls == [] then b
    else AfterCalls(TakeTokens(b, calls[0].cost, calls[0].at).tokens, calls[1..])
  }

  /** Total cost of the takes which were granted. */
  function Granted(b: Tokens, calls: seq<Call>): nat
    requires b.rate > 0
    decreases |calls|
  {
    if calls == [] then 0
    else
      var taken := TakeTokens(b, calls[0].cost, calls[0].at);
      (if taken.wait.None? then calls[0].cost else 0) + Granted(taken.tokens, calls[1..])
  }

  /** Lowest a bucket goes when no cost is over `most`: one take over a
      second's worth leaves it in debt. */
  function Floor(rate: nat, most: nat): real {
    Least(0.0, rate as real - most as real)
  }

  lemma TakeBounds(b: Tokens, cost: nat, now: real, most: nat)
    requires Good(b) && b.filled <= now && cost <= most && Floor(b.rate, most) <= b.held
    ensures var taken := TakeTokens(b, cost, now);
            && Good(taken.tokens) && taken.tokens.rate == b.rate && taken.tokens.filled == now
            && Floor(b.rate, most) <= taken.tokens.held
            && taken.tokens.held + (if taken.wait.None? then cost as real else 0.0) <=
               b.held + Earned(b.rate, now - b.filled)
  {
    EarnedGrows(b.rate, 0.0, now - b.filled);
    hide Earned;
    assert cost as real <= most as real;
  }

  /** Over any takes at nondecreasing times the tokens granted and those
      still held are at most those held before and earned since. */
  lemma {:induction false} TokensConserved(b: Tokens, calls: seq<Call>, most: nat)
    requires Good(b) && Timely(b, calls) && Floor(b.rate, most) <= b.held
    requires forall i :: 0 <= i < |calls| ==> calls[i].cost <= most
    ensures var after := AfterCalls(b, calls);
            && Good(after) && after.rate == b.rate && b.filled <= after.filled
            && Floor(b.rate, most) <= after.held
            && after.held + Granted(b, calls) as real <= b.held + Earned(b.rate, after.filled - b.filled)
    decreases |calls|
  {
    if calls != [] {
      var taken := TakeTokens(b, calls[0].cost, calls[0].at);
      TakeBounds(b, calls[0].cost, calls[0].at, most);
      TokensConserved(taken.tokens, calls[1..], most);
      var after := AfterCalls(b, calls);
      EarnedAdds(b.rate, calls[0].at - b.filled, after.filled - calls[0].at);
      hide TakeTokens, Floor, Earned;
      assert (calls[0].at - b.filled) + (after.filled - calls[0].at) == after.filled - b.filled;
    }
  }

  /** Rate bound: what any takes are granted within `T` seconds is at most
      one second's worth, `T` seconds' worth and the debt of one oversized
      take, and the bucket stays within its bounds. */
  lemma RateBound(b: Tokens, calls: seq<Call>, most: nat)
    requires Good(b) && Timely(b, calls) && Floor(b.rate, most) <= b.held
    requires forall i :: 0 <= i < |calls| ==> calls[i].cost <= most
    ensures var after, rate := AfterCalls(b, calls), b.rate as real;
            var elapsed := after.filled - b.filled;
            var oversize := if most > b.rate then (most - b.rate) as real else 0.0;
            && Granted(b, calls) as real <= rate + Earned(b.rate, elapsed) + oversize
            && Least(0.0, rate - most as real) <= after.held <= rate
  {
    TokensConserved(b, calls, most);
    hide AfterCalls, Granted, TakeTokens, Timely, Earned;
  }

  // ---- Two buckets ----

  /** Buckets of a disk, `None` where the rate is not limited. */
  datatype Limits = Limits(bytes: Option<Tokens>, requests: Option<Tokens>)

  datatype Admitted = Admitted(limits: Limits, wait: Option<real>)

  ghost predicate GoodLimits(l: Limits) {
    (l.bytes.Some? ==> Good(l.bytes.value)) && (l.requests.Some? ==> Good(l.requests.value))
  }

  /** No bucket was filled after `now`. */
  ghost predicate FilledBy(l: Limits, now: real) {
    (l.bytes.Some? ==> l.bytes.value.filled <= now) && (l.requests.Some? ==> l.requests.value.filled <= now)
  }

  function TakeFrom(b: Option<Tokens>, cost: nat, now: real): (Option<Tokens>, Option<real>)
    requires b.Some? ==> b.value.rate > 0
  {
    match b
    case None => (None, None)
    case Some(tokens) => var taken := TakeTokens(tokens, cost, now); (Some(taken.tokens), taken.wait)
  }

  /** Take one request at `t` and its bytes at `u`. If the bytes are short
      the request is put back. */
  function Admit(l: Limits, bytes: nat, t: real, u: real): Admitted
    requires GoodLimits(l)
  {
    var (requests, short) := TakeFrom(l.requests, 1, t);
    if short.Some? then Admitted(l.(requests := requests), short)
    else
      var (left, wait) := TakeFrom(l.bytes, bytes, u);
      if wait.Some? then
        var refunded := match requests case None => None case Some(b) => Some(Refund(b, 1));
        Admitted(Limits(left, refunded), wait)
      else Admitted(Limits(left, requests), None)
  }

  function RefillAll(l: Limits, now: real): Limits {
    Limits(match l.bytes case None => None case Some(b) => Some(Refill(b, now)),
           match l.requests case None => None case Some(b) => Some(Refill(b, now)))
  }

  /** A request is let through exactly if both buckets grant it, the one for
      requests first, and waits for the first which does not. */
  lemma AdmitExact(l: Limits, bytes: nat, t: real, u: real)
    requires GoodLimits(l)
    ensures var a := Admit(l, bytes, t, u);
            var short := l.requests.Some? && TakeTokens(l.requests.value, 1, t).wait.Some?;
            var heavy := l.bytes.Some? && TakeTokens(l.bytes.value, bytes, u).wait.Some?;
            && (a.wait.None? <==> !short && !heavy)
            && (short ==> a.wait == TakeTokens(l.requests.value, 1, t).wait && a.limits.bytes == l.bytes)
            && (!short && heavy ==> a.wait == TakeTokens(l.bytes.value, bytes, u).wait)
            && (a.limits.bytes.Some? <==> l.bytes.Some?) && (a.limits.requests.Some? <==> l.requests.Some?)
  {
    hide TakeTokens, Refund;
  }

  /** A refusal takes nothing: later both buckets are as if it never came. */
  lemma RefusalTakesNothing(l: Limits, bytes: nat, t: real, u: real, later: real)
    requires GoodLimits(l) && FilledBy(l, t) && t <= u <= later
    requires Admit(l, bytes, t, u).wait.Some?
    ensures RefillAll(Admit(l, bytes, t, u).limits, later) == RefillAll(l, later)
    ensures GoodLimits(Admit(l, bytes, t, u).limits) && FilledBy(Admit(l, bytes, t, u).limits, u)
  {
    if l.requests.Some? {
      RefillTwice(l.requests.value, t, later);
    }
    if l.bytes.Some? {
      RefillTwice(l.bytes.value, u, later);
    }
  }

  /** Whether a bucket would grant `cost` at `now`. */
  ghost predicate Ready(b: Option<Tokens>, cost: nat, now: real) {
    b.Some? ==> b.value.rate > 0 && Grants(b.value, cost, now)
  }

  lemma StaysReady(b: Tokens, cost: nat, t: real, u: real)
    requires Good(b) && b.filled <= t <= u && Grants(b, cost, t)
    ensures Grants(b, cost, u)
  {
    EarnedGrows(b.rate, t - b.filled, u - b.filled);
    hide Earned;
  }

  /** Once a wait has passed the bucket which asked for it is ready, and it
      stays so. */
  lemma ReadyAfterWait(l: Limits, bytes: nat, t: real, u: real, later: real)
    requires GoodLimits(l) && FilledBy(l, t) && t <= u
    requires Admit(l, bytes, t, u).wait.Some?
    requires u + Admit(l, bytes, t, u).wait.value <= later
    ensures Ready(l.requests, 1, later)
    ensures Ready(l.requests, 1, t) ==> Ready(l.bytes, bytes, later)
    ensures Admit(l, bytes, t, u).wait.value > 0.0
  {
    if Ready(l.requests, 1, t) {
      if l.requests.Some? {
        StaysReady(l.requests.value, 1, t, later);
      }
      ReadyAtLast(l.bytes.value, bytes, u, later);
    } else {
      ReadyAtLast(l.requests.value, 1, t, later);
    }
  }

  lemma ReadyAtLast(b: Tokens, cost: nat, now: real, later: real)
    requires Good(b) && b.filled <= now && TakeTokens(b, cost, now).wait.Some?
    requires now + TakeTokens(b, cost, now).wait.value <= later
    ensures Grants(b, cost, later) && TakeTokens(b, cost, now).wait.value > 0.0
  {
    var wait := TakeTokens(b, cost, now).wait.value;
    WaitEarnsShortage(b, cost, now);
    if wait <= 0.0 {
      EarnedGrows(b.rate, wait, 0.0);
    }
    hide Earned;
    RefillTwice(b, now, later);
    WaitIsExact(b, cost, now, later);
  }

  /** Progress: a held request retried after each wait, with no other take,
      is granted after at most two waits. */
  lemma GrantedAfterTwoWaits(l: Limits, bytes: nat, t: real, u: real, t': real, u': real, t'': real, u'': real)
    requires GoodLimits(l) && FilledBy(l, t) && t <= u
    requires Admit(l, bytes, t, u).wait.Some? && u + Admit(l, bytes, t, u).wait.value <= t' <= u'
    requires var second := Admit(l, bytes, t, u).limits;
             GoodLimits(second) && Admit(second, bytes, t', u').wait.Some? &&
             u' + Admit(second, bytes, t', u').wait.value <= t'' <= u''
    ensures var second := Admit(l, bytes, t, u).limits;
            var third := Admit(second, bytes, t', u').limits;
            GoodLimits(third) && Admit(third, bytes, t'', u'').wait.None?
  {
    var second := Admit(l, bytes, t, u).limits;
    var third := Admit(second, bytes, t', u').limits;
    ReadyAfterWait(l, bytes, t, u, t');
    RefusalTakesNothing(l, bytes, t, u, t');
    RefusalTakesNothing(l, bytes, t, u, u');
    RefusalTakesNothing(second, bytes, t', u', t'');
    RefusalTakesNothing(second, bytes, t', u', u'');
    SameWhenRefilled(l, second, bytes, t', u');
    ReadyAfterWait(second, bytes, t', u', t'');
    ReadyAfterWait(second, bytes, t', u', u'');
    SameWhenRefilled(second, third, bytes, t'', u'');
  }

  /** Limits which refill alike are ready alike. */
  lemma SameWhenRefilled(l: Limits, m: Limits, bytes: nat, t: real, u: real)
    requires GoodLimits(l) && GoodLimits(m)
    requires RefillAll(l, t) == RefillAll(m, t) && RefillAll(l, u) == RefillAll(m, u)
    ensures Ready(l.requests, 1, t) <==> Ready(m.requests, 1, t)
    ensures Ready(l.bytes, bytes, u) <==> Ready(m.bytes, bytes, u)
  {
  }

  // ---- The limiter a disk holds ----

  // ---- Rate bound of a disk ----

  /** One request asked for: its bytes and the two readings of the clock. */
  datatype Ask = Ask(bytes: nat, t: real, u: real)

  function AfterAsk(l: Limits, a: Ask): Admitted
    requires GoodLimits(l)
  {
    Admit(l, a.bytes, a.t, a.u)
  }

  /** The clock never goes back, neither between two requests nor within one. */
  ghost predicate InTime(l: Limits, asks: seq<Ask>)
    decreases |asks|
  {
    && GoodLimits(l)
    && (asks != [] ==> FilledBy(l, asks[0].t) && asks[0].t <= asks[0].u &&
                       InTime(AfterAsk(l, asks[0]).limits, asks[1..]))
  }

  ghost function AfterAsks(l: Limits, asks: seq<Ask>): Limits
    requires InTime(l, asks)
    decreases |asks|
  {
    if asks == [] then l else AfterAsks(AfterAsk(l, asks[0]).limits, asks[1..])
  }

  /** Bytes and requests let through. */
  ghost function LetBytes(l: Limits, asks: seq<Ask>): nat
    requires InTime(l, asks)
    decreases |asks|
  {
    if asks == [] then 0
    else (if AfterAsk(l, asks[0]).wait.None? then asks[0].bytes else 0) +
         LetBytes(AfterAsk(l, asks[0]).limits, asks[1..])
  }

  ghost function LetRequests(l: Limits, asks: seq<Ask>): nat
    requires InTime(l, asks)
    decreases |asks|
  {
    if asks == [] then 0
    else (if AfterAsk(l, asks[0]).wait.None? then 1 else 0) + LetRequests(AfterAsk(l, asks[0]).limits, asks[1..])
  }

  /** The bucket for requests refuses. */
  predicate RequestShort(l: Limits, a: Ask)
    requires GoodLimits(l)
  {
    TakeFrom(l.requests, 1, a.t).1.Some?
  }

  /** Takes the bucket for bytes sees: none of a request already refused. */
  ghost function ByteCalls(l: Limits, asks: seq<Ask>): seq<Call>
    requires InTime(l, asks)
    decreases |asks|
  {
    if asks == [] then []
    else
      (if RequestShort(l, asks[0]) then [] else [Call(asks[0].bytes, asks[0].u)]) +
      ByteCalls(AfterAsk(l, asks[0]).limits, asks[1..])
  }

  /** Takes the bucket for requests sees, where a take and its refund are the
      same as a take of nothing. */
  ghost function RequestCalls(l: Limits, asks: seq<Ask>): seq<Call>
    requires InTime(l, asks)
    decreases |asks|
  {
    if asks == [] then []
    else
      [Call(if !RequestShort(l, asks[0]) && AfterAsk(l, asks[0]).wait.Some? then 0 else 1, asks[0].t)] +
      RequestCalls(AfterAsk(l, asks[0]).limits, asks[1..])
  }

  lemma AskKeepsGood(l: Limits, a: Ask)
    requires GoodLimits(l) && FilledBy(l, a.t) && a.t <= a.u
    ensures GoodLimits(AfterAsk(l, a).limits) && FilledBy(AfterAsk(l, a).limits, a.u)
  {
    hide Earned;
  }

  /** Two stretches of requests one after the other. */
  lemma {:induction false} AsksTogether(l: Limits, a: seq<Ask>, b: seq<Ask>)
    requires InTime(l, a) && InTime(AfterAsks(l, a), b)
    ensures InTime(l, a + b) && AfterAsks(l, a + b) == AfterAsks(AfterAsks(l, a), b)
    ensures LetBytes(l, a + b) == LetBytes(l, a) + LetBytes(AfterAsks(l, a), b)
    ensures LetRequests(l, a + b) == LetRequests(l, a) + LetRequests(AfterAsks(l, a), b)
    decreases |a|
  {
    hide AfterAsk, GoodLimits, FilledBy;
    if a == [] {
      assert a + b == b;
    } else {
      AsksTogether(AfterAsk(l, a[0]).limits, a[1..], b);
      assert (a + b)[0] == a[0] && (a + b)[1..] == a[1..] + b;
    }
  }

  /** One request more. */
  lemma AskOn(l: Limits, asks: seq<Ask>, a: Ask)
    requires InTime(l, asks) && FilledBy(AfterAsks(l, asks), a.t) && a.t <= a.u
    ensures GoodLimits(AfterAsks(l, asks)) && InTime(l, asks + [a])
    ensures AfterAsks(l, asks + [a]) == AfterAsk(AfterAsks(l, asks), a).limits
    ensures FilledBy(AfterAsks(l, asks + [a]), a.u)
    ensures var let := AfterAsk(AfterAsks(l, asks), a).wait.None?;
            && LetBytes(l, asks + [a]) == LetBytes(l, asks) + (if let then a.bytes else 0)
            && LetRequests(l, asks + [a]) == LetRequests(l, asks) + (if let then 1 else 0)
  {
    AsksStayGood(l, asks);
    var m := AfterAsks(l, asks);
    AskKeepsGood(m, a);
    hide AfterAsk, GoodLimits, FilledBy;
    var next := AfterAsk(m, a).limits;
    assert [a][1..] == [] && InTime(next, []) && AfterAsks(next, []) == next;
    assert LetBytes(next, []) == 0 && LetRequests(next, []) == 0;
    AsksTogether(l, asks, [a]);
  }

  lemma {:induction false} AsksStayGood(l: Limits, asks: seq<Ask>)
    requires InTime(l, asks)
    ensures GoodLimits(AfterAsks(l, asks))
    decreases |asks|
  {
    hide AfterAsk, GoodLimits, FilledBy;
    if asks != [] {
      AsksStayGood(AfterAsk(l, asks[0]).limits, asks[1..]);
    }
  }

  lemma RefundIsRefill(b: Tokens, now: real)
    requires Good(b) && TakeTokens(b, 1, now).wait.None?
    ensures Refund(TakeTokens(b, 1, now).tokens, 1) == TakeTokens(b, 0, now).tokens
  {
    hide Earned;
  }

  /** One request as its buckets see it. */
  lemma AskAsTakes(l: Limits, a: Ask)
    requires GoodLimits(l)
    ensures var r := AfterAsk(l, a);
            && (l.bytes.Some? ==>
                  if RequestShort(l, a) then r.limits.bytes == l.bytes && r.wait.Some?
                  else
                    var taken := TakeTokens(l.bytes.value, a.bytes, a.u);
                    r.limits.bytes == Some(taken.tokens) && (r.wait.None? <==> taken.wait.None?))
            && (l.requests.Some? ==>
                  var cost := if !RequestShort(l, a) && r.wait.Some? then 0 else 1;
                  var taken := TakeTokens(l.requests.value, cost, a.t);
                  r.limits.requests == Some(taken.tokens) && (cost == 1 ==> (r.wait.None? <==> taken.wait.None?)))
  {
    if l.requests.Some? && TakeTokens(l.requests.value, 1, a.t).wait.None? {
      RefundIsRefill(l.requests.value, a.t);
    }
    hide TakeTokens, Refund;
  }

  lemma {:induction false} BytesAsTakes(l: Limits, asks: seq<Ask>, most: nat)
    requires InTime(l, asks) && l.bytes.Some? && forall i :: 0 <= i < |asks| ==> asks[i].bytes <= most
    ensures var b, calls := l.bytes.value, ByteCalls(l, asks);
            && Timely(b, calls) && AfterAsks(l, asks).bytes == Some(AfterCalls(b, calls))
            && LetBytes(l, asks) == Granted(b, calls)
            && forall k :: 0 <= k < |calls| ==> calls[k].cost <= most
    decreases |asks|
  {
    hide TakeTokens, AfterAsk, RequestShort, TakeFrom;
    if asks != [] {
      AskAsTakes(l, asks[0]);
      var next := AfterAsk(l, asks[0]).limits;
      BytesAsTakes(next, asks[1..], most);
      var calls, rest := ByteCalls(l, asks), ByteCalls(next, asks[1..]);
      if RequestShort(l, asks[0]) {
        assert calls == rest;
      } else {
        assert calls[0] == Call(asks[0].bytes, asks[0].u) && calls[1..] == rest;
      }
    }
  }

  lemma {:induction false} RequestsAsTakes(l: Limits, asks: seq<Ask>)
    requires InTime(l, asks) && l.requests.Some?
    ensures var b, calls := l.requests.value, RequestCalls(l, asks);
            && Timely(b, calls) && AfterAsks(l, asks).requests == Some(AfterCalls(b, calls))
            && LetRequests(l, asks) == Granted(b, calls)
            && forall k :: 0 <= k < |calls| ==> calls[k].cost <= 1
    decreases |asks|
  {
    hide TakeTokens, AfterAsk, RequestShort, TakeFrom;
    if asks != [] {
      AskAsTakes(l, asks[0]);
      var next := AfterAsk(l, asks[0]).limits;
      RequestsAsTakes(next, asks[1..]);
      var calls := RequestCalls(l, asks);
      assert calls[1..] == RequestCalls(next, asks[1..]);
    }
  }

  /** Rate bound of the disk, with refusals by either bucket and refunds: the
      bytes let through are within the rate of their bucket. */
  lemma DiskBytesBound(l: Limits, asks: seq<Ask>, most: nat)
    requires InTime(l, asks) && forall i :: 0 <= i < |asks| ==> asks[i].bytes <= most
    requires l.bytes.Some? && Floor(l.bytes.value.rate, most) <= l.bytes.value.held
    ensures var b, after := l.bytes.value, AfterAsks(l, asks).bytes;
            var oversize := if most > b.rate then (most - b.rate) as real else 0.0;
            && after.Some? && Floor(b.rate, most) <= after.value.held <= b.rate as real
            && LetBytes(l, asks) as real <= b.rate as real + Earned(b.rate, after.value.filled - b.filled) + oversize
  {
    assert GoodLimits(l);
    hide InTime, AfterAsks, LetBytes, ByteCalls, Timely, AfterCalls, Granted, Earned;
    BytesAsTakes(l, asks, most);
    RateBound(l.bytes.value, ByteCalls(l, asks), most);
  }

  /** And so are the requests, none of which is over a second's worth. */
  lemma DiskRequestsBound(l: Limits, asks: seq<Ask>)
    requires InTime(l, asks) && l.requests.Some? && 0.0 <= l.requests.value.held
    ensures var b, after := l.requests.value, AfterAsks(l, asks).requests;
            && after.Some? && 0.0 <= after.value.held <= b.rate as real
            && LetRequests(l, asks) as real <= b.rate as real + Earned(b.rate, after.value.filled - b.filled)
  {
    assert GoodLimits(l);
    RequestsAsTakes(l, asks);
    RequestBound(l.requests.value, RequestCalls(l, asks));
    hide InTime, AfterAsks, LetRequests, RequestCalls, Timely, AfterCalls, Granted, Earned;
  }

  lemma RequestBound(b: Tokens, calls: seq<Call>)
    requires Good(b) && Timely(b, calls) && 0.0 <= b.held && forall k :: 0 <= k < |calls| ==> calls[k].cost <= 1
    ensures 0.0 <= AfterCalls(b, calls).held <= b.rate as real
    ensures Granted(b, calls) as real <= b.rate as real + Earned(b.rate, AfterCalls(b, calls).filled - b.filled)
  {
    hide Timely, AfterCalls, Granted, Earned;
    RateBound(b, calls, 1);
  }

  class Bucket {
    const rate: nat
    var held: real
    var filled: real

    ghost predicate Valid()
      reads this
    {
      Good(View())
    }

    ghost function View(): Tokens
      reads this
    {
      Tokens(rate, held, filled)
    }

    /** A full bucket. */
    constructor (rate: nat, now: real)
      requires rate > 0
      ensures Valid() && View() == Tokens(rate, rate as real, now)
    {
      this.rate, held, filled := rate, rate as real, now;
    }

    method Take(cost: nat, now: real) returns (wait: Option<real>)
      requires Valid()
      modifies this
      ensures Valid() && Taken(View(), wait) == TakeTokens(old(View()), cost, now)
    {
      var earned := (now - filled) * rate as real;
      assert earned == Earned(rate, now - filled);
      hide Earned;
      held := Least(held + earned, rate as real);
      filled := now;
      var want := Least(cost as real, rate as real);
      if want > held {
        return Some((want - held) / rate as real);
      }
      held := held - cost as real;
      wait := None;
    }

    method PutBack(cost: nat)
      requires Valid()
      modifies this
      ensures Valid() && View() == Refund(old(View()), cost)
    {
      held := Least(held + cost as real, rate as real);
    }
  }

  class Limiter {
    const bytes: Bucket?
    const requests: Bucket?

    ghost predicate Valid()
      reads this, bytes, requests
    {
      && (bytes != null ==> bytes.Valid())
      && (requests != null ==> requests.Valid() && requests != bytes)
    }

    ghost function View(): Limits
      reads this, bytes, requests
    {
      Limits(if bytes == null then None else Some(bytes.View()),
             if requests == null then None else Some(requests.View()))
    }

    /** A rate of zero is not limited. */
    constructor (bytesRate: nat, requestsRate: nat, now: real)
      ensures Valid() && fresh({bytes, requests} - {null})
      ensures bytes == null <==> bytesRate == 0
      ensures requests == null <==> requestsRate == 0
      ensures bytes != null ==> bytes.View() == Tokens(bytesRate, bytesRate as real, now)
      ensures requests != null ==> requests.View() == Tokens(requestsRate, requestsRate as real, now)
    {
      if bytesRate > 0 {
        bytes := new Bucket(bytesRate, now);
      } else {
        bytes := null;
      }
      if requestsRate > 0 {
        requests := new Bucket(requestsRate, now);
      } else {
        requests := null;
      }
    }

    /** Take one request moving `cost` bytes, the clock reading `t` and then
        `u`, or return the time to wait. */
    method Take(cost: nat, t: real, u: real) returns (wait: Option<real>)
      requires Valid()
      modifies bytes, requests
      ensures Valid() && Admitted(View(), wait) == Admit(old(View()), cost, t, u)
    {
      if requests != null {
        wait := requests.Take(1, t);
        if wait.Some? {
          return;
        }
      }
      wait := None;
      if bytes != null {
        wait := bytes.Take(cost, u);
        if wait.Some? && requests != null {
          requests.PutBack(1);
        }
      }
    }
  }
}
