// src/common/redis-throttler-storage.ts: the fixed-window limiter with a block key, one atomic script per call.
// Instants are whole milliseconds. At the very millisecond a key's time is up Redis may still hold it or not;
// `lingers` says which, call by call, so the results hold either way.
module Throttler {
  import opened Prelude

  type Time = int

  datatype Config = Config(ttl: int, limit: nat, blockMs: int)

  datatype Hits = Hits(count: nat, expireAt: Time)

  datatype Keys = Keys(hits: Option<Hits>, blockedUntil: Option<Time>)

  datatype Call = Call(now: Time, lingers: bool)

  datatype Reply = Reply(hits: nat, hitsPttl: int, isBlocked: bool, blockPttl: int)

  /** What the guard is told, times in whole seconds. */
  datatype Record = Record(totalHits: nat, timeToExpire: int, isBlocked: bool, timeToBlockExpire: int)

  function CeilSeconds(ms: int): int {
    (ms + 999) / 1000
  }

  ghost predicate ValidConfig(c: Config) {
    c.ttl > 0 && c.blockMs > 0
  }

  /** `blockDuration || ttl`: without a block duration the block lasts one window. */
  function ConfigOf(ttl: int, limit: nat, blockDuration: int): Config {
    Config(ttl, limit, if blockDuration == 0 then ttl else blockDuration)
  }

  predicate Present(h: Hits, call: Call) {
    call.now < h.expireAt || (call.now == h.expireAt && call.lingers)
  }

  predicate BlockLive(k: Keys, now: Time) {
    k.blockedUntil.Some? && now < k.blockedUntil.value
  }

  predicate Opens(k: Keys, call: Call) {
    !BlockLive(k, call.now) && (k.hits.None? || !Present(k.hits.value, call))
  }

  /** The counter key after INCR, and PEXPIRE when it was just created. */
  function Counted(c: Config, k: Keys, call: Call): Hits {
    if k.hits.Some? && Present(k.hits.value, call) then Hits(k.hits.value.count + 1, k.hits.value.expireAt)
    else Hits(1, call.now + c.ttl)
  }

  function Next(c: Config, k: Keys, call: Call): Keys {
    if BlockLive(k, call.now) then k
    else
      var h := Counted(c, k, call);
      Keys(Some(h), if h.count > c.limit then Some(call.now + c.blockMs) else k.blockedUntil)
  }

  predicate Allowed(c: Config, k: Keys, call: Call) {
    !BlockLive(k, call.now) && Counted(c, k, call).count <= c.limit
  }

  class RedisKeys {
    var hits: Option<Hits>
    var blockedUntil: Option<Time>

    constructor ()
      ensures Value() == Keys(None, None)
    {
      hits, blockedUntil := None, None;
    }

    function Value(): Keys
      reads this
    {
      Keys(hits, blockedUntil)
    }

    /** INCREMENT_SCRIPT. */
    method Increment(c: Config, call: Call) returns (reply: Reply)
      requires ValidConfig(c)
      modifies this
      ensures Value() == Next(c, old(Value()), call)
      ensures !reply.isBlocked <==> Allowed(c, old(Value()), call)
      ensures reply.hits == if BlockLive(old(Value()), call.now) then 0 else Counted(c, old(Value()), call).count
      ensures reply.hitsPttl == if hits.Some? then Max(0, hits.value.expireAt - call.now) else 0
      ensures reply.isBlocked ==> blockedUntil == Some(call.now + reply.blockPttl) && reply.blockPttl > 0
      ensures reply.blockPttl == if !reply.isBlocked then 0
              else if BlockLive(old(Value()), call.now) then old(blockedUntil).value - call.now
              else c.blockMs
    {
      var blockedPttl := if blockedUntil.Some? then blockedUntil.value - call.now else -2;
      if blockedPttl > 0 {
        var pttl := if hits.Some? && Present(hits.value, call) then hits.value.expireAt - call.now else -2;
        return Reply(0, if pttl < 0 then 0 else pttl, true, blockedPttl);
      }
      var count := if hits.Some? && Present(hits.value, call) then hits.value.count + 1 else 1;
      var expireAt := if hits.Some? && Present(hits.value, call) then hits.value.expireAt else call.now + c.ttl;
      hits := Some(Hits(count, expireAt));
      var pttl := expireAt - call.now;
      if pttl < 0 {
        pttl := 0;
      }
      var isBlocked, blockPttl := false, 0;
      if count > c.limit {
        blockedUntil := Some(call.now + c.blockMs);
        isBlocked, blockPttl := true, c.blockMs;
      }
      return Reply(count, pttl, isBlocked, blockPttl);
    }

    /**
     * `increment`: a new block lasts `blockDuration`, or one window without one. The seconds reported for a block and
     * for the window are enough to wait them out, and less than a second too many.
     */
    method IncrementKey(ttl: int, limit: nat, blockDuration: int, call: Call) returns (record: Record)
      requires ttl > 0 && blockDuration >= 0
      modifies this
      ensures var c := ConfigOf(ttl, limit, blockDuration);
              && Value() == Next(c, old(Value()), call)
              && (record.isBlocked <==> !Allowed(c, old(Value()), call))
      ensures record.isBlocked ==>
                !BlockLive(Value(), call.now + record.timeToBlockExpire * 1000)
                && BlockLive(Value(), call.now + (record.timeToBlockExpire - 1) * 1000)
      ensures record.isBlocked && !BlockLive(old(Value()), call.now) ==>
                blockedUntil == Some(call.now + if blockDuration == 0 then ttl else blockDuration)
      ensures hits.Some? && hits.value.expireAt >= call.now ==>
                record.timeToExpire * 1000 - 1000 < hits.value.expireAt - call.now <= record.timeToExpire * 1000
      ensures hits.None? || hits.value.expireAt < call.now ==> record.timeToExpire == 0
      ensures record.totalHits == if BlockLive(old(Value()), call.now) then 0
              else Counted(ConfigOf(ttl, limit, blockDuration), old(Value()), call).count
    {
      var reply := Increment(ConfigOf(ttl, limit, blockDuration), call);
      return Record(reply.hits, CeilSeconds(reply.hitsPttl), reply.isBlocked, CeilSeconds(reply.blockPttl));
    }
  }

  // ---- Runs ----

  ghost predicate InTimeOrder(calls: seq<Call>) {
    forall i, j :: 0 <= i < j < |calls| ==> calls[i].now <= calls[j].now
  }

  function After(c: Config, k: Keys, calls: seq<Call>): Keys
    decreases |calls|
  {
    if calls == [] then k else After(c, Next(c, k, calls[0]), calls[1..])
  }

  /** How many calls of the run are allowed at times in [from, to). */
  function AllowedIn(c: Config, k: Keys, calls: seq<Call>, from: Time, to: Time): (n: nat)
    decreases |calls|
  {
    if calls == [] then 0
    else (if Allowed(c, k, calls[0]) && from <= calls[0].now < to then 1 else 0)
         + AllowedIn(c, Next(c, k, calls[0]), calls[1..], from, to)
  }

  /** What an interval [from, to) no longer than a window can still allow. */
  ghost function Budget(c: Config, k: Keys, from: Time, to: Time): int {
    if k.hits.None? || k.hits.value.expireAt < from then c.limit
    else Max(0, c.limit - k.hits.value.count) + if k.hits.value.expireAt < to then c.limit else 0
  }

  lemma {:induction false} NothingAfter(c: Config, k: Keys, calls: seq<Call>, from: Time, to: Time)
    requires forall i :: 0 <= i < |calls| ==> to <= calls[i].now
    ensures AllowedIn(c, k, calls, from, to) == 0
    decreases |calls|
  {
    if calls != [] {
      NothingAfter(c, Next(c, k, calls[0]), calls[1..], from, to);
    }
  }

  lemma {:induction false} WithinBudget(c: Config, k: Keys, calls: seq<Call>, from: Time, to: Time)
    requires ValidConfig(c) && InTimeOrder(calls) && to <= from + c.ttl
    requires forall i :: 0 <= i < |calls| ==> from <= calls[i].now
    ensures AllowedIn(c, k, calls, from, to) <= Budget(c, k, from, to)
    decreases |calls|
  {
    if calls != [] {
      if calls[0].now < to {
        WithinBudget(c, Next(c, k, calls[0]), calls[1..], from, to);
      } else {
        NothingAfter(c, k, calls, from, to);
      }
    }
  }

  /** A counter that exists has counted at least one call. */
  ghost predicate Started(k: Keys) {
    k.hits.Some? ==> k.hits.value.count >= 1
  }

  /**
   * Over every run, any interval no longer than a window allows fewer than twice the limit: at most limit - 1 calls
   * left over from a window opened earlier, and at most limit from one opened inside.
   */
  lemma {:induction false} AnyIntervalIsBounded(c: Config, k: Keys, calls: seq<Call>, from: Time, to: Time)
    requires ValidConfig(c) && InTimeOrder(calls) && to <= from + c.ttl && Started(k)
    ensures c.limit > 0 ==> AllowedIn(c, k, calls, from, to) <= 2 * c.limit - 1
    ensures c.limit == 0 ==> AllowedIn(c, k, calls, from, to) == 0
    decreases |calls|
  {
    if calls != [] {
      if calls[0].now < from {
        AnyIntervalIsBounded(c, Next(c, k, calls[0]), calls[1..], from, to);
      } else {
        WithinBudget(c, k, calls, from, to);
      }
    }
  }

  // ---- The bound is attained ----

  function Repeat(call: Call, n: nat): (calls: seq<Call>)
    ensures |calls| == n && forall i :: 0 <= i < n ==> calls[i] == call
  {
    if n == 0 then [] else [call] + Repeat(call, n - 1)
  }

  lemma {:induction false} AllowedInAppend(c: Config, k: Keys, a: seq<Call>, b: seq<Call>, from: Time, to: Time)
    ensures AllowedIn(c, k, a + b, from, to) == AllowedIn(c, k, a, from, to) + AllowedIn(c, After(c, k, a), b, from, to)
    decreases |a|
  {
    if a == [] {
      assert a + b == b;
    } else {
      assert (a + b)[1..] == a[1..] + b;
      AllowedInAppend(c, Next(c, k, a[0]), a[1..], b, from, to);
    }
  }

  // `n` calls at one instant inside an open window that still has room for them are all allowed.
  lemma {:induction false} RepeatFillsWindow(c: Config, h: Hits, call: Call, n: nat, from: Time, to: Time)
    requires call.now < h.expireAt && h.count + n <= c.limit && from <= call.now < to
    ensures After(c, Keys(Some(h), None), Repeat(call, n)) == Keys(Some(Hits(h.count + n, h.expireAt)), None)
    ensures AllowedIn(c, Keys(Some(h), None), Repeat(call, n), from, to) == n
    decreases n
  {
    if n > 0 {
      assert Repeat(call, n)[1..] == Repeat(call, n - 1);
      RepeatFillsWindow(c, Hits(h.count + 1, h.expireAt), call, n - 1, from, to);
    }
  }

  /** A window opened at 0 and filled in its last millisecond, then the next window filled in its first. */
  function Burst(c: Config): seq<Call>
    requires c.limit > 0
  {
    [Call(0, false)] + (Repeat(Call(c.ttl - 1, false), c.limit - 1)
        + ([Call(c.ttl, false)] + Repeat(Call(c.ttl, false), c.limit - 1)))
  }

  lemma BurstSecondWindow(c: Config)
    requires ValidConfig(c) && c.limit > 0 && c.ttl > 1
    ensures AllowedIn(c, Keys(Some(Hits(c.limit, c.ttl)), None),
                      [Call(c.ttl, false)] + Repeat(Call(c.ttl, false), c.limit - 1), 1, 1 + c.ttl) == c.limit
  {
    var later := Call(c.ttl, false);
    var k := Keys(Some(Hits(c.limit, c.ttl)), None);
    assert Next(c, k, later) == Keys(Some(Hits(1, 2 * c.ttl)), None);
    assert ([later] + Repeat(later, c.limit - 1))[1..] == Repeat(later, c.limit - 1);
    RepeatFillsWindow(c, Hits(1, 2 * c.ttl), later, c.limit - 1, 1, 1 + c.ttl);
  }

  lemma BurstInOrder(c: Config)
    requires ValidConfig(c) && c.limit > 0
    ensures InTimeOrder(Burst(c))
  {
  }

  /** The burst, run from an empty store, reaches the bound within one window's length, so it cannot be lowered. */
  lemma BoundIsAttained(c: Config)
    requires ValidConfig(c) && c.limit > 0 && c.ttl > 1
    ensures InTimeOrder(Burst(c))
    ensures AllowedIn(c, Keys(None, None), Burst(c), 1, 1 + c.ttl) == 2 * c.limit - 1
  {
    BurstInOrder(c);
    var opening, late := Call(0, false), Repeat(Call(c.ttl - 1, false), c.limit - 1);
    var second := [Call(c.ttl, false)] + Repeat(Call(c.ttl, false), c.limit - 1);
    BurstFirstWindow(c, late);
    BurstSecondWindow(c);
    AllowedInAppend(c, Next(c, Keys(None, None), opening), late, second, 1, 1 + c.ttl);
    AllowedInAppend(c, Keys(None, None), [opening], late + second, 1, 1 + c.ttl);
    OneCall(c, Keys(None, None), opening, 1, 1 + c.ttl);
    assert Burst(c) == [opening] + (late + second);
  }

  lemma OneCall(c: Config, k: Keys, call: Call, from: Time, to: Time)
    ensures After(c, k, [call]) == Next(c, k, call)
    ensures AllowedIn(c, k, [call], from, to) == if Allowed(c, k, call) && from <= call.now < to then 1 else 0
  {
  }

  lemma BurstFirstWindow(c: Config, late: seq<Call>)
    requires ValidConfig(c) && c.limit > 0 && c.ttl > 1 && late == Repeat(Call(c.ttl - 1, false), c.limit - 1)
    ensures var k1 := Next(c, Keys(None, None), Call(0, false));
            && After(c, k1, late) == Keys(Some(Hits(c.limit, c.ttl)), None)
            && AllowedIn(c, k1, late, 1, 1 + c.ttl) == c.limit - 1
  {
    RepeatFillsWindow(c, Hits(1, c.ttl), Call(c.ttl - 1, false), c.limit - 1, 1, 1 + c.ttl);
  }

  // ---- One window, one block ----

  /** How many calls are allowed before the next one that opens a new window. */
  function AllowedBeforeNextWindow(c: Config, k: Keys, calls: seq<Call>): nat
    decreases |calls|
  {
    if calls == [] || Opens(k, calls[0]) then 0
    else (if Allowed(c, k, calls[0]) then 1 else 0) + AllowedBeforeNextWindow(c, Next(c, k, calls[0]), calls[1..])
  }

  lemma {:induction false} WindowHasRoomFor(c: Config, k: Keys, calls: seq<Call>)
    requires k.hits.Some?
    ensures AllowedBeforeNextWindow(c, k, calls) <= Max(0, c.limit - k.hits.value.count)
    decreases |calls|
  {
    if calls != [] && !Opens(k, calls[0]) {
      WindowHasRoomFor(c, Next(c, k, calls[0]), calls[1..]);
    }
  }

  /** A counting window, its opening call included, allows at most the limit. */
  lemma WindowAllowsAtMostLimit(c: Config, k: Keys, opening: Call, rest: seq<Call>)
    requires Opens(k, opening)
    ensures (if Allowed(c, k, opening) then 1 else 0) + AllowedBeforeNextWindow(c, Next(c, k, opening), rest) <= c.limit
  {
    WindowHasRoomFor(c, Next(c, k, opening), rest);
  }

  /** While a block is live no call is allowed and none is counted, however many come. */
  lemma {:induction false} BlockRefusesAndCountsNothing(c: Config, k: Keys, calls: seq<Call>, from: Time, to: Time)
    requires k.blockedUntil.Some? && forall i :: 0 <= i < |calls| ==> calls[i].now < k.blockedUntil.value
    ensures AllowedIn(c, k, calls, from, to) == 0 && After(c, k, calls) == k
    decreases |calls|
  {
    if calls != [] {
      BlockRefusesAndCountsNothing(c, k, calls[1..], from, to);
    }
  }

  /** A call over the limit starts a block that refuses everything for the whole block duration. */
  lemma ExcessBlocks(c: Config, k: Keys, call: Call, rest: seq<Call>, from: Time, to: Time)
    requires ValidConfig(c) && !BlockLive(k, call.now) && !Allowed(c, k, call)
    requires forall i :: 0 <= i < |rest| ==> rest[i].now < call.now + c.blockMs
    ensures AllowedIn(c, k, [call] + rest, from, to) == 0
    ensures After(c, k, [call] + rest) == Next(c, k, call)
  {
    BlockRefusesAndCountsNothing(c, Next(c, k, call), rest, from, to);
    assert ([call] + rest)[1..] == rest;
  }

  /** No block is live and the call's window, which ends at `windowEnd`, has no room for it. */
  ghost predicate OverLimitAt(c: Config, k: Keys, call: Call, windowEnd: Time) {
    && (k.blockedUntil.None? || k.blockedUntil.value <= call.now)
    && if k.hits.Some? && (call.now < k.hits.value.expireAt || (call.now == k.hits.value.expireAt && call.lingers))
       then k.hits.value.count >= c.limit && windowEnd == k.hits.value.expireAt
       else c.limit == 0 && windowEnd == call.now + c.ttl
  }

  /**
   * A block lasts exactly the block duration: whatever was tried meanwhile, a call changes nothing if and only if it
   * comes before the block's end, and the first call past both the block and the window is allowed.
   */
  lemma BlockEndsOnTime(c: Config, k: Keys, call: Call, rest: seq<Call>, later: Call, windowEnd: Time)
    requires ValidConfig(c) && OverLimitAt(c, k, call, windowEnd)
    requires forall i :: 0 <= i < |rest| ==> rest[i].now < call.now + c.blockMs
    ensures var after := After(c, k, [call] + rest);
            && (Next(c, after, later) == after <==> later.now < call.now + c.blockMs)
            && (c.limit >= 1 && later.now >= call.now + c.blockMs && later.now > windowEnd ==> Allowed(c, after, later))
            && (later.now < call.now + c.blockMs ==> !Allowed(c, after, later))
  {
    ExcessBlocks(c, k, call, rest, 0, 0);
  }

  // ---- The fate of a call, from the calls before it ----

  datatype Fate = UnderBlock | OverLimit | Passes

  /**
   * What becomes of call `i`, told by the calls and the clock, with no key: it is under a block when a call over the
   * limit came less than the block duration before it, and over the limit when its window has counted enough calls.
   */
  ghost function FateOf(c: Config, calls: seq<Call>, i: nat): Fate
    requires i < |calls|
    decreases i, 2
  {
    if exists j :: 0 <= j < i && FateOf(c, calls, j).OverLimit? && calls[i].now < calls[j].now + c.blockMs
    then UnderBlock
    else if CountedSince(c, calls, OpenedBy(c, calls, i), i) >= c.limit then OverLimit
    else Passes
  }

  /** The call that opened the window call `i` is counted in. */
  ghost function OpenedBy(c: Config, calls: seq<Call>, i: nat): (o: nat)
    requires i < |calls|
    ensures o <= i
    decreases i, 1
  {
    var o := LastOpening(c, calls, i);
    if o.Some? && (calls[i].now < calls[o.value].now + c.ttl
                   || (calls[i].now == calls[o.value].now + c.ttl && calls[i].lingers))
    then o.value
    else i
  }

  /** The opening of the newest window before call `i`. */
  ghost function LastOpening(c: Config, calls: seq<Call>, i: nat): (o: Option<nat>)
    requires i <= |calls|
    ensures o.Some? ==> o.value < i
    decreases i, 0
  {
    if i == 0 then None
    else if FateOf(c, calls, i - 1).UnderBlock? then LastOpening(c, calls, i - 1)
    else Some(OpenedBy(c, calls, i - 1))
  }

  /** How many calls from `from` up to but not including `i` were counted. */
  ghost function CountedSince(c: Config, calls: seq<Call>, from: nat, i: nat): nat
    requires i <= |calls|
    decreases i, 0
  {
    if i <= from then 0
    else CountedSince(c, calls, from, i - 1) + if FateOf(c, calls, i - 1).UnderBlock? then 0 else 1
  }

  /** The two keys after the first `i` calls, told by the calls. */
  ghost predicate KeysTell(c: Config, calls: seq<Call>, i: nat, k: Keys)
    requires i <= |calls|
  {
    && k.hits == (match LastOpening(c, calls, i)
                  case None => None
                  case Some(o) => Some(Hits(CountedSince(c, calls, o, i), calls[o].now + c.ttl)))
    && (forall j :: 0 <= j < i && FateOf(c, calls, j).OverLimit? ==>
          k.blockedUntil.Some? && calls[j].now + c.blockMs <= k.blockedUntil.value)
    && (k.blockedUntil.Some? ==>
          exists j :: 0 <= j < i && FateOf(c, calls, j).OverLimit? && k.blockedUntil.value == calls[j].now + c.blockMs)
  }

  lemma FateByKeys(c: Config, calls: seq<Call>, i: nat, k: Keys)
    requires i < |calls| && KeysTell(c, calls, i, k)
    ensures FateOf(c, calls, i).UnderBlock? <==> BlockLive(k, calls[i].now)
    ensures FateOf(c, calls, i).Passes? <==> Allowed(c, k, calls[i])
    ensures !BlockLive(k, calls[i].now) ==>
              Counted(c, k, calls[i]).count == CountedSince(c, calls, OpenedBy(c, calls, i), i) + 1
  {
  }

  lemma KeysGoOn(c: Config, calls: seq<Call>, i: nat, k: Keys)
    requires ValidConfig(c) && i < |calls| && KeysTell(c, calls, i, k)
    ensures KeysTell(c, calls, i + 1, Next(c, k, calls[i]))
  {
    FateByKeys(c, calls, i, k);
  }

  lemma {:induction false} AfterSnoc(c: Config, k: Keys, calls: seq<Call>, call: Call)
    ensures After(c, k, calls + [call]) == Next(c, After(c, k, calls), call)
    decreases |calls|
  {
    if calls == [] {
      assert calls + [call] == [call];
    } else {
      assert (calls + [call])[1..] == calls[1..] + [call];
      AfterSnoc(c, Next(c, k, calls[0]), calls[1..], call);
    }
  }

  lemma {:induction false} KeysOfRun(c: Config, calls: seq<Call>, i: nat)
    requires ValidConfig(c) && i <= |calls|
    ensures KeysTell(c, calls, i, After(c, Keys(None, None), calls[..i]))
  {
    if i > 0 {
      KeysOfRun(c, calls, i - 1);
      KeysGoOn(c, calls, i - 1, After(c, Keys(None, None), calls[..i - 1]));
      AfterSnoc(c, Keys(None, None), calls[..i - 1], calls[i - 1]);
      assert calls[..i] == calls[..i - 1] + [calls[i - 1]];
    }
  }

  /** In every run from an empty store, whatever the order of the clocks, each call has exactly its fate. */
  lemma EveryCallMeetsItsFate(c: Config, calls: seq<Call>, i: nat)
    requires ValidConfig(c) && i < |calls|
    ensures var k := After(c, Keys(None, None), calls[..i]);
            && (Allowed(c, k, calls[i]) <==> FateOf(c, calls, i).Passes?)
            && (Next(c, k, calls[i]) == k <==> FateOf(c, calls, i).UnderBlock?)
  {
    KeysOfRun(c, calls, i);
    FateByKeys(c, calls, i, After(c, Keys(None, None), calls[..i]));
  }
}
