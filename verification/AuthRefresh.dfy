/**
 The throttled credential refresh of the sync engine (`RefreshThrottle`, `refresh_auth_inner`,
 src/handlers/auth.rs), one call at a time. Instants and durations are integers in nanoseconds.
 */
module AuthRefresh {
  import opened Wrappers

  type Instant = int

  const SECOND := 1_000_000_000
  const MAX_ATTEMPTS: nat := 5
  const BASE_BACKOFF := SECOND
  const MAX_BACKOFF := 300 * SECOND
  const EXHAUSTION_COOLDOWN := 3600 * SECOND
  const U32_MAX: nat := 0xFFFF_FFFF

  datatype Throttle = Throttle(failures: nat, lastAttempt: Option<Instant>)

  const FRESH := Throttle(0, None)

  function Min(a: int, b: int): int {
    if a <= b then a else b
  }

  function Pow2(n: nat): (r: nat)
    ensures r >= 1
  {
    if n == 0 then 1 else 2 * Pow2(n - 1)
  }

  /** `1u32.checked_shl(shift).unwrap_or(u32::MAX)` */
  function Shifted(shift: nat): nat {
    if shift < 32 then Pow2(shift) else U32_MAX
  }

  function RequiredWait(failures: nat): int {
    if failures == 0 then 0
    else if failures >= MAX_ATTEMPTS then EXHAUSTION_COOLDOWN
    else Min(BASE_BACKOFF * Shifted(failures - 1), MAX_BACKOFF)
  }

  function Elapsed(now: Instant, since: Instant): int {
    if now >= since then now - since else 0
  }

  /** None when a re-register attempt is allowed now. */
  function RemainingCooldown(t: Throttle, now: Instant): Option<int> {
    if t.lastAttempt.None? then None
    else
      var wait, elapsed := RequiredWait(t.failures), Elapsed(now, t.lastAttempt.value);
      if elapsed >= wait then None else Some(wait - elapsed)
  }

  function SaturatingSucc(n: nat): nat {
    if n < U32_MAX then n + 1 else n
  }

  datatype Key = Key(text: string)

  datatype State = State(throttle: Throttle, lastReturned: Option<Key>)

  /** One call: what the credential file holds, the clock, and how a re-register would end. */
  datatype Call = Call(stored: Result<Option<Key>, string>, now: Instant, reregister: Result<Key, string>)

  datatype Outcome =
    | LoadFailed
    | StoredKey(key: Key)
    | BackingOff(wait: int)
    | Exhausted(wait: int)
    | Registered(key: Key)
    | RegisterFailed

  predicate HitsNetwork(o: Outcome) {
    o.Registered? || o.RegisterFailed?
  }

  predicate Succeeds(o: Outcome) {
    o.StoredKey? || o.Registered?
  }

  function Decide(s: State, c: Call): Outcome {
    match c.stored
    case Err(_) => LoadFailed
    case Ok(stored) =>
      if stored.Some? && s.lastReturned != Some(stored.value) then StoredKey(stored.value)
      else match RemainingCooldown(s.throttle, c.now)
        case Some(wait) => if s.throttle.failures >= MAX_ATTEMPTS then Exhausted(wait) else BackingOff(wait)
        case None => if c.reregister.Ok? then Registered(c.reregister.value) else RegisterFailed
  }

  function After(s: State, c: Call): State {
    match Decide(s, c)
    case StoredKey(k) => State(FRESH, Some(k))
    case Registered(k) => State(FRESH, Some(k))
    case RegisterFailed => s.(throttle := Throttle(SaturatingSucc(s.throttle.failures), Some(c.now)))
    case _ => s
  }

  /** The state captured by the refresh callback. */
  class Refresher {
    var failures: nat
    var lastAttempt: Option<Instant>
    var lastReturned: Option<Key>

    ghost function Current(): State
      reads this
    {
      State(Throttle(failures, lastAttempt), lastReturned)
    }

    constructor ()
      ensures Current() == State(FRESH, None)
    {
      failures, lastAttempt, lastReturned := 0, None, None;
    }

    method RecordAttempt(now: Instant)
      modifies this
      ensures Current() == old(Current()).(throttle := Throttle(old(failures), Some(now)))
    {
      lastAttempt := Some(now);
    }

    method RecordSuccess()
      modifies this
      ensures Current() == old(Current()).(throttle := FRESH)
    {
      failures, lastAttempt := 0, None;
    }

    method RecordFailure()
      modifies this
      ensures Current() == old(Current()).(throttle := Throttle(SaturatingSucc(old(failures)), old(lastAttempt)))
    {
      if failures < U32_MAX {
        failures := failures + 1;
      }
    }

    method Refresh(c: Call) returns (o: Outcome)
      modifies this
      ensures o == Decide(old(Current()), c) && Current() == After(old(Current()), c)
    {
      match c.stored {
        case Err(_) => return LoadFailed;
        case Ok(stored) =>
          if stored.Some? && lastReturned != Some(stored.value) {
            lastReturned := Some(stored.value);
            RecordSuccess();
            return StoredKey(stored.value);
          }
      }
      var remaining := RemainingCooldown(Throttle(failures, lastAttempt), c.now);
      if remaining.Some? {
        return if failures >= MAX_ATTEMPTS then Exhausted(remaining.value) else BackingOff(remaining.value);
      }
      RecordAttempt(c.now);
      if c.reregister.Ok? {
        RecordSuccess();
        lastReturned := Some(c.reregister.value);
        return Registered(c.reregister.value);
      }
      RecordFailure();
      return RegisterFailed;
    }
  }

  // ---- What a call answers and remembers ----

  /** The wait after each number of consecutive failures: none, 1, 2, 4 and 8 seconds, then an hour. */
  lemma WaitTable(failures: nat)
    ensures RequiredWait(failures) ==
            match failures
            case 0 => 0
            case 1 => 1_000_000_000
            case 2 => 2_000_000_000
            case 3 => 4_000_000_000
            case 4 => 8_000_000_000
            case _ => 3_600_000_000_000
  {
    SmallPowers();
  }

  /** An attempt is held back while less than the wait has passed since the last one, by exactly the rest of it. */
  lemma HeldBackIff(t: Throttle, now: Instant, rest: int)
    ensures RemainingCooldown(t, now) == Some(rest) <==>
            && t.lastAttempt.Some?
            && var passed := now - t.lastAttempt.value;
               rest == RequiredWait(t.failures) - (if passed > 0 then passed else 0) && rest > 0
  {
  }

  /** Nothing holds an attempt back. */
  predicate GateIsOpen(t: Throttle, now: Instant) {
    RemainingCooldown(t, now).None?
  }

  /** A credential file that cannot be read fails the call and changes nothing. */
  lemma UnreadableFails(s: State, c: Call)
    requires c.stored.Err?
    ensures Decide(s, c) == LoadFailed && After(s, c) == s
  {
  }

  /** A stored key other than the one last returned is returned at once, whatever the throttle holds. */
  lemma NewStoredKeyIsReturned(s: State, c: Call, k: Key)
    requires c.stored == Ok(Some(k)) && s.lastReturned != Some(k)
    ensures Decide(s, c) == StoredKey(k) && After(s, c) == State(Throttle(0, None), Some(k))
  {
  }

  /** There is no stored key, or it is the one last returned. */
  predicate NothingNew(s: State, c: Call) {
    c.stored == Ok(None) || (c.stored.Ok? && c.stored.value.Some? && s.lastReturned == c.stored.value)
  }

  /** With nothing new stored, a closed gate refuses without a trace, and an open one lets the call re-register. */
  lemma OtherwiseTheGateDecides(s: State, c: Call)
    requires NothingNew(s, c)
    ensures !GateIsOpen(s.throttle, c.now) ==>
              var rest := RemainingCooldown(s.throttle, c.now).value;
              && Decide(s, c) == (if s.throttle.failures < 5 then BackingOff(rest) else Exhausted(rest))
              && After(s, c) == s
    ensures GateIsOpen(s.throttle, c.now) && c.reregister.Ok? ==>
              && Decide(s, c) == Registered(c.reregister.value)
              && After(s, c) == State(Throttle(0, None), Some(c.reregister.value))
    ensures GateIsOpen(s.throttle, c.now) && c.reregister.Err? && s.throttle.failures < 0xFFFF_FFFF ==>
              && Decide(s, c) == RegisterFailed
              && After(s, c) == State(Throttle(s.throttle.failures + 1, Some(c.now)), s.lastReturned)
    ensures GateIsOpen(s.throttle, c.now) && c.reregister.Err? && s.throttle.failures == 0xFFFF_FFFF ==>
              Decide(s, c) == RegisterFailed && After(s, c) == State(Throttle(0xFFFF_FFFF, Some(c.now)), s.lastReturned)
  {
  }

  /** The key that a call returns. */
  function KeyOf(o: Outcome): Option<Key> {
    match o
    case StoredKey(k) => Some(k)
    case Registered(k) => Some(k)
    case _ => None
  }

  /** A call that returns a key remembers it and clears the throttle, so the same stored key re-registers next time. */
  lemma ReturnedKeyGoesStale(s: State, c: Call, next: Call, k: Key)
    requires KeyOf(Decide(s, c)) == Some(k) && next.stored == Ok(Some(k))
    ensures After(s, c).lastReturned == Some(k)
    ensures Decide(After(s, c), next) ==
            if next.reregister.Ok? then Registered(next.reregister.value) else RegisterFailed
  {
  }

  // ---- Whole runs ----

  function Run(s: State, calls: seq<Call>): State {
    if calls == [] then s else After(Run(s, calls[..|calls| - 1]), calls[|calls| - 1])
  }

  function OutcomeOf(s: State, calls: seq<Call>, i: nat): Outcome
    requires i < |calls|
  {
    Decide(Run(s, calls[..i]), calls[i])
  }

  /** The key that the last successful call of a run returned. */
  function LastKey(s: State, calls: seq<Call>): Option<Key> {
    if calls == [] then s.lastReturned else
      var n := |calls| - 1;
      var k := KeyOf(Decide(Run(s, calls[..n]), calls[n]));
      if k.Some? then k else LastKey(s, calls[..n])
  }

  /** What is remembered after any run is the last key returned. */
  lemma {:induction false} RemembersLastKey(s: State, calls: seq<Call>)
    ensures Run(s, calls).lastReturned == LastKey(s, calls)
  {
    if calls != [] {
      RemembersLastKey(s, calls[..|calls| - 1]);
    }
  }

  /** Over any run, a stored key is never handed out when it is the key that was handed out last. */
  lemma NoKeyTwiceFromStore(s: State, calls: seq<Call>, c: Call, k: Key)
    requires LastKey(s, calls) == Some(k) && c.stored == Ok(Some(k))
    ensures Decide(Run(s, calls), c) != StoredKey(k)
  {
    RemembersLastKey(s, calls);
  }

  /** No call of the run returns a key. */
  ghost predicate NeverSucceeds(s: State, calls: seq<Call>) {
    forall i | 0 <= i < |calls| :: !Succeeds(OutcomeOf(s, calls, i))
  }

  /** The clock values of the calls that reached the network. */
  function AttemptTimes(s: State, calls: seq<Call>): seq<Instant> {
    if calls == [] then [] else
      var before, c := calls[..|calls| - 1], calls[|calls| - 1];
      AttemptTimes(s, before) + (if HitsNetwork(Decide(Run(s, before), c)) then [c.now] else [])
  }

  function Saturated(n: nat): nat {
    if n < U32_MAX then n else U32_MAX
  }

  ghost predicate Spaced(times: seq<Instant>) {
    forall i, j | 0 <= i < j < |times| && j == i + 1 :: times[j] - times[i] >= RequiredWait(Saturated(j))
  }

  lemma Prefix(s: State, calls: seq<Call>)
    requires calls != [] && NeverSucceeds(s, calls)
    ensures NeverSucceeds(s, calls[..|calls| - 1])
  {
    var before := calls[..|calls| - 1];
    forall i | 0 <= i < |before| ensures !Succeeds(OutcomeOf(s, before, i)) {
      assert before[..i] == calls[..i];
      assert !Succeeds(OutcomeOf(s, calls, i));
    }
  }

  /** The throttle remembers how many attempts there were and when the last one was. */
  lemma {:induction false} FailingRun(s: State, calls: seq<Call>)
    requires s.throttle == FRESH && NeverSucceeds(s, calls)
    ensures var times, t := AttemptTimes(s, calls), Run(s, calls).throttle;
            && t.failures == Saturated(|times|)
            && t.lastAttempt == (if times == [] then None else Some(times[|times| - 1]))
            && Spaced(times)
  {
    if calls != [] {
      var before, c := calls[..|calls| - 1], calls[|calls| - 1];
      Prefix(s, calls);
      FailingRun(s, before);
      assert !Succeeds(OutcomeOf(s, calls, |calls| - 1));
    }
  }

  /** The least time from the first attempt to the n-th, in seconds. */
  function LeastSeconds(n: nat): int
    requires n >= 1
  {
    if n <= 5 then Pow2(n - 1) - 1 else 15 + 3600 * (n - 5)
  }

  lemma SmallPowers()
    ensures Pow2(0) == 1 && Pow2(1) == 2 && Pow2(2) == 4 && Pow2(3) == 8 && Pow2(4) == 16
  {
    assert Pow2(2) == 2 * Pow2(1) && Pow2(3) == 2 * Pow2(2) && Pow2(4) == 2 * Pow2(3);
  }

  lemma LeastSecondsStep(n: nat)
    requires n >= 1
    ensures LeastSeconds(n + 1) * SECOND == LeastSeconds(n) * SECOND + RequiredWait(Saturated(n))
  {
    SmallPowers();
    if n < 5 {
      assert n == 1 || n == 2 || n == 3 || n == 4;
    }
  }

  lemma {:induction false} SpacedTotal(times: seq<Instant>, n: nat)
    requires Spaced(times) && 1 <= n <= |times|
    ensures times[n - 1] - times[0] >= LeastSeconds(n) * SECOND
  {
    if n > 1 {
      SpacedTotal(times, n - 1);
      LeastSecondsStep(n - 1);
      assert times[n - 1] - times[n - 2] >= RequiredWait(Saturated(n - 1));
    } else {
      SmallPowers();
    }
  }

  /**
   While nothing succeeds, whatever the clock shows and however often the callback is called, the n-th
   network attempt comes at least 2^(n-1) - 1 seconds after the first for n <= 5, and at least
   15 + 3600 * (n - 5) seconds after it from then on.
   */
  lemma AttemptsAreThrottled(s: State, calls: seq<Call>, n: nat)
    requires s.throttle == FRESH && NeverSucceeds(s, calls)
    requires 1 <= n <= |AttemptTimes(s, calls)|
    ensures AttemptTimes(s, calls)[n - 1] - AttemptTimes(s, calls)[0] >=
            (if n <= 5 then Pow2(n - 1) - 1 else 15 + 3600 * (n - 5)) * 1_000_000_000
  {
    FailingRun(s, calls);
    SpacedTotal(AttemptTimes(s, calls), n);
  }

  /** A failing call, made the least time after the first attempt that an n-th attempt may come. */
  function EagerCall(n: nat): Call
    requires n >= 1
  {
    Call(Ok(None), LeastSeconds(n) * SECOND, Err("offline"))
  }

  function EagerCalls(n: nat): (calls: seq<Call>)
    ensures |calls| == n
  {
    if n == 0 then [] else EagerCalls(n - 1) + [EagerCall(n)]
  }

  function EagerTimes(n: nat): (times: seq<Instant>)
    ensures |times| == n
    ensures forall i | 0 <= i < n :: times[i] == LeastSeconds(i + 1) * SECOND
  {
    if n == 0 then [] else EagerTimes(n - 1) + [LeastSeconds(n) * SECOND]
  }

  function EagerState(n: nat): State {
    State(if n == 0 then FRESH else Throttle(Saturated(n), Some(LeastSeconds(n) * SECOND)), None)
  }

  lemma EagerCallFails(n: nat)
    requires n >= 1
    ensures Decide(EagerState(n - 1), EagerCall(n)) == RegisterFailed
    ensures After(EagerState(n - 1), EagerCall(n)) == EagerState(n)
  {
    if n > 1 {
      LeastSecondsStep(n - 1);
      WaitIsNonNegative(Saturated(n - 1));
    }
  }

  lemma {:induction false} EagerRun(n: nat)
    ensures Run(State(FRESH, None), EagerCalls(n)) == EagerState(n)
    ensures AttemptTimes(State(FRESH, None), EagerCalls(n)) == EagerTimes(n)
  {
    if n > 0 {
      EagerRun(n - 1);
      EagerCallFails(n);
      assert EagerCalls(n)[..n - 1] == EagerCalls(n - 1);
    }
  }

  /** The bound is exact: an eager caller makes its n-th attempt at that very instant, for every n. */
  lemma BoundIsAttained(n: nat, i: nat)
    requires 1 <= i <= n
    ensures var times := AttemptTimes(State(FRESH, None), EagerCalls(n));
            |times| == n && times[i - 1] - times[0] == LeastSeconds(i) * SECOND
  {
    EagerRun(n);
    SmallPowers();
  }

  lemma WaitIsNonNegative(failures: nat)
    ensures RequiredWait(failures) >= 0
  {
    SmallPowers();
  }

  /** More failures never shorten the wait. */
  lemma WaitIsMonotone(a: nat, b: nat)
    requires a <= b
    ensures RequiredWait(a) <= RequiredWait(b)
  {
    SmallPowers();
    assert a == 0 || a == 1 || a == 2 || a == 3 || a == 4 || a >= 5;
    assert b == 0 || b == 1 || b == 2 || b == 3 || b == 4 || b >= 5;
  }

  /** The reported cooldown is exact: it counts down with the clock, and the attempt is allowed when it ends. */
  lemma CooldownIsExact(t: Throttle, now: Instant, wait: int, later: int)
    requires t.lastAttempt.Some? && t.lastAttempt.value <= now && RemainingCooldown(t, now) == Some(wait) && later >= 0
    ensures RemainingCooldown(t, now + later) == if later >= wait then None else Some(wait - later)
  {
  }

  /** Any success resets the throttle, so the next stale-key call reaches the network at once. */
  lemma SuccessResets(s: State, c: Call, next: Call)
    requires Succeeds(Decide(s, c))
    requires next.stored.Ok? && (next.stored.value.Some? ==> After(s, c).lastReturned == next.stored.value)
    ensures After(s, c).throttle == FRESH
    ensures HitsNetwork(Decide(After(s, c), next))
  {
  }
}
