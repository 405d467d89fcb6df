/**
 Job records, budgets and intents of the durable journal (`nomiso-core/src/job.rs`),
 and the clock arithmetic its store uses. Times are milliseconds.
 */
module Jobs {
  import opened Wrappers
  import opened Dedup

  datatype JobState = Pending | Leased | Succeeded | Failed | Cancelled | Superseded

  /** Terminal states commit no further work and free the dedup slot. */
  predicate Terminal(s: JobState) { s.Succeeded? || s.Failed? || s.Cancelled? || s.Superseded? }

  const U64_MAX: nat := 0xFFFF_FFFF_FFFF_FFFF
  const BACKOFF_DEFAULT_MS: nat := 1000
  const KIND_MAX := 64
  const INPUTS_MAX := 64
  const HISTORY_MAX := 20

  type U64 = x: nat | x <= U64_MAX

  datatype Budget = Budget(maxAttempts: nat, leaseMs: U64, backoffMs: Option<U64>, deadlineMs: Option<U64>)

  // ---- Backoff ----------------------------------------------------------------

  function Shift(n: nat): nat
    requires n <= 8
  {
    if n == 0 then 1 else 2 * Shift(n - 1)
  }

  function Base(b: Budget): U64 { if b.backoffMs.Some? then b.backoffMs.value else BACKOFF_DEFAULT_MS }

  function SaturatingMul(a: nat, b: nat): U64 { if a * b <= U64_MAX then a * b else U64_MAX }

  function Backoff(b: Budget, attempts: nat): U64 {
    SaturatingMul(Base(b), Shift(if attempts < 8 then attempts else 8))
  }

  lemma {:induction false} ShiftGrows(m: nat, n: nat)
    requires m <= n <= 8
    ensures 1 <= Shift(m) <= Shift(n)
    decreases n
  {
    if m < n {
      ShiftGrows(m, n - 1);
    } else if n > 0 {
      ShiftGrows(n - 1, n - 1);
    }
  }

  lemma ShiftAtCap()
    ensures Shift(8) == 256
  {
    assert Shift(4) == 16;
  }

  /** More attempts never wait less. */
  lemma BackoffIsMonotone(b: Budget, m: nat, n: nat)
    requires m <= n
    ensures Backoff(b, m) <= Backoff(b, n)
  {
    var i, j := if m < 8 then m else 8, if n < 8 then n else 8;
    ShiftGrows(i, j);
    MulMonotone(Base(b), Shift(i), Shift(j));
  }

  lemma MulMonotone(a: nat, x: nat, y: nat)
    requires x <= y
    ensures a * x <= a * y
  {
  }

  /**
   The wait lies between the base and 256 times it, stops growing at the eighth
   attempt, and is the exact product unless that passes the 64-bit maximum.
   */
  lemma BackoffIsBounded(b: Budget, attempts: nat)
    ensures Base(b) <= Backoff(b, attempts) <= 256 * Base(b)
    ensures attempts >= 8 ==> Backoff(b, attempts) == Backoff(b, 8)
    ensures attempts >= 8 && 256 * Base(b) <= U64_MAX ==> Backoff(b, attempts) == 256 * Base(b)
    ensures attempts >= 8 && 256 * Base(b) > U64_MAX ==> Backoff(b, attempts) == U64_MAX
  {
    var i := if attempts < 8 then attempts else 8;
    ShiftGrows(i, 8);
    ShiftAtCap();
    MulMonotone(Base(b), 1, Shift(i));
    MulMonotone(Base(b), Shift(i), 256);
  }

  /** The wait starts at the base and doubles with every attempt up to the eighth, saturating. */
  lemma BackoffDoubles(b: Budget, n: nat)
    ensures Backoff(b, 0) == Base(b)
    ensures n < 8 ==> Backoff(b, n + 1) == (if 2 * Backoff(b, n) <= U64_MAX then 2 * Backoff(b, n) else U64_MAX)
  {
    if n < 8 {
      DoubledProduct(Base(b), Shift(n));
    }
  }

  lemma DoubledProduct(a: nat, x: nat)
    ensures a * (2 * x) == 2 * (a * x)
  {
  }

  // ---- Clock ---------------------------------------------------------------------

  /** 9999-12-30T22:00:00.999Z, the last whole millisecond a timestamp can hold. */
  const TIMESTAMP_MAX: nat := 253402207200999

  /** Now plus an offset; an offset past the last timestamp collapses to now. */
  function NowPlus(now: nat, ms: U64): nat {
    if now + ms <= TIMESTAMP_MAX then now + ms else now
  }

  // ---- Intents -----------------------------------------------------------------------

  datatype Request = Request(scope: string, kind: string, inputs: seq<Input>, composition: string,
                             budget: Budget, hint: string)

  datatype Intent = Intent(kind: string, inputs: seq<Input>, selfInput: bool, composition: string,
                           budget: Budget, hint: string)

  function Resolve(it: Intent, scope: string, selfKey: Option<string>): Request {
    Request(scope, it.kind,
            if it.selfInput && selfKey.Some? then it.inputs + [Input(Memory, selfKey.value, Some(1))] else it.inputs,
            it.composition, it.budget, it.hint)
  }

  /** The identity of an intent: the text that its deduplication hash, taken as injective, stands for. */
  type DedupKey = string

  function DedupOf(r: Request): DedupKey { Material(r.scope, r.kind, r.inputs, r.composition, r.hint) }

  /**
   Shape checks of an enqueue request; bodies are opaque here. A parsed scope and
   a JSON text hold no line break.
   */
  predicate ValidRequest(r: Request) {
    && 0 < |r.kind| <= KIND_MAX
    && |r.inputs| <= INPUTS_MAX
    && r.budget.maxAttempts > 0
    && r.budget.leaseMs > 0
    && '\n' !in r.scope && '\n' !in r.composition
  }

  /** The fields an identity is made of agree, the inputs as bags of pins. */
  ghost predicate SameIntent(r: Request, s: Request) {
    && r.scope == s.scope && r.kind == s.kind && multiset(Pins(r.inputs)) == multiset(Pins(s.inputs))
    && r.composition == s.composition && r.hint == s.hint
  }

  /** The texts of the request keep to what the identity tells apart. */
  predicate PlainIntent(r: Request) { '\n' !in r.kind && PlainIds(r.inputs) }

  /** Plain requests have one dedup key exactly when they are one intent. */
  lemma SameDedupIff(r: Request, s: Request)
    requires ValidRequest(r) && ValidRequest(s) && PlainIntent(r) && PlainIntent(s)
    ensures DedupOf(r) == DedupOf(s) <==> SameIntent(r, s)
  {
    SameMaterialIff(r.scope, r.kind, r.inputs, r.composition, r.hint, s.scope, s.kind, s.inputs, s.composition, s.hint);
  }

  const PINNED := Request("s", "a", [Input(Memory, "x", Some(1))], "null", Budget(1, 1, None, None), "\nnull\nz")
  const BROKEN_KIND := Request("s", "a\nmemory:x:1\nnull", [], "null", Budget(1, 1, None, None), "z")

  /** Two valid requests, one with an input and one without, that are one job to the store. */
  lemma DifferentIntentsShareAKey()
    ensures ValidRequest(PINNED) && ValidRequest(BROKEN_KIND)
    ensures !SameIntent(PINNED, BROKEN_KIND) && DedupOf(PINNED) == DedupOf(BROKEN_KIND)
  {
    var pin := Pin(Memory, "x", 1);
    assert Pins(PINNED.inputs) == [pin];
    OnePinText(pin);
    assert Decimal(1) == "1";
    assert PinsText([pin]) == "memory:x:1";
    KindWithLineBreakCollides("s", "a", PINNED.inputs, "null", "null", "z");
    assert "a" + ("\n" + ("memory:x:1" + ("\n" + "null"))) == BROKEN_KIND.kind;
    assert "\n" + ("null" + ("\n" + "z")) == PINNED.hint;
  }

  lemma KeyScopeOfRequest(r: Request)
    requires ValidRequest(r)
    ensures KeyScope(DedupOf(r)) == r.scope
  {
    KeyScopeOfMaterial(r.scope, r.kind, r.inputs, r.composition, r.hint);
  }

  // ---- Records --------------------------------------------------------------------------

  datatype JobError = JobError(code: string, message: string, retryable: bool)

  datatype Attempt = Attempt(attempt: nat, worker: string, fence: nat, startedAt: nat,
                             endedAt: Option<nat>, error: Option<string>)

  /** The unique index entry: the live key, or a tombstone made of the job's own id. */
  datatype Slot = Live(key: DedupKey) | Tombstone(id: string)

  datatype Job = Job(
    id: string, scope: string, kind: string, state: JobState, dedup: DedupKey, slot: Slot,
    inputs: seq<Input>, budget: Budget, attempts: nat, fence: nat,
    owner: Option<string>, leaseUntil: Option<nat>, notBefore: Option<nat>, expiresAt: Option<nat>,
    checkpoint: Option<string>, result: Option<string>, error: Option<JobError>,
    replacedBy: Option<string>, reason: Option<string>, history: seq<Attempt>,
    createdAt: nat, completedAt: Option<nat>)

  function NewJob(id: string, r: Request, now: nat): Job {
    Job(id, r.scope, r.kind, Pending, DedupOf(r), Live(DedupOf(r)), r.inputs, r.budget, 0, 0,
        None, None, None, if r.budget.deadlineMs.Some? then Some(NowPlus(now, r.budget.deadlineMs.value)) else None,
        None, None, None, None, None, [], now, None)
  }

  /** An open entry receives its end and, if there is one, the error; a closed one stays. */
  function Ended(a: Attempt, now: nat, error: Option<string>): Attempt {
    if a.endedAt.Some? then a
    else a.(endedAt := Some(now), error := if error.Some? then error else a.error)
  }

  /** The newest entries only, the last one ended. */
  function CloseHistory(h: seq<Attempt>, now: nat, error: Option<string>): (r: seq<Attempt>)
    ensures |r| <= HISTORY_MAX
    ensures |r| == (if |h| < HISTORY_MAX then |h| else HISTORY_MAX)
    ensures forall i :: 0 <= i < |r| - 1 ==> r[i] == h[|h| - |r| + i]
    ensures h != [] ==> r[|r| - 1] == Ended(h[|h| - 1], now, error)
  {
    var closed :=
      if h != [] && h[|h| - 1].endedAt.None? then
        var last := h[|h| - 1].(endedAt := Some(now));
        h[..|h| - 1] + [if error.Some? then last.(error := error) else last]
      else h;
    if |closed| > HISTORY_MAX then closed[|closed| - HISTORY_MAX..] else closed
  }
}
