/** What a client map means: a table from addresses to (last seen, send queue), the two
    operations on it, and what a whole run of those operations guarantees. */
module ClientTable {

  /** A client address; the code uses one only as a map key. */
  datatype Addr = ClientID(id: nat)

  /** Send queues are channels: the k-th `make(chan []byte, queueSize)` is channel k. */
  type QueueId = nat

  datatype Entry = Entry(lastSeen: int, queue: QueueId)

  type Table = map<Addr, Entry>

  const MIN_DURATION: int := -0x8000_0000_0000_0000
  const MAX_DURATION: int := 0x7fff_ffff_ffff_ffff

  /** `time.Duration`: signed 64-bit nanoseconds. */
  type Duration = d: int | MIN_DURATION <= d <= MAX_DURATION

  /** `time.Time.Sub`: the difference, saturated to the range of a Duration. */
  function Sub(t: int, u: int): Duration {
    if t - u < MIN_DURATION then MIN_DURATION
    else if t - u > MAX_DURATION then MAX_DURATION
    else t - u
  }

  predicate Expired(now: int, lastSeen: int, timeout: Duration) {
    Sub(now, lastSeen) >= timeout
  }

  /** Saturation never changes the verdict for a timeout a caller would use. */
  lemma ExpiredIsPlainDifference(now: int, lastSeen: int, timeout: Duration)
    ensures Expired(now, lastSeen, timeout) <==> timeout == MIN_DURATION || now - lastSeen >= timeout
  {
  }

  /** A lookup of `a` at time `now`; `made` is the channel made if `a` has no record. */
  function Touch(t: Table, a: Addr, now: int, made: QueueId): Table {
    t[a := Entry(now, if a in t then t[a].queue else made)]
  }

  /** A sweep: every record not seen for `timeout` goes, every other stays as it was. */
  function Sweep(t: Table, now: int, timeout: Duration): Table {
    map a | a in t && !Expired(now, t[a].lastSeen, timeout) :: t[a]
  }

  // ----- runs -----

  datatype Call =
    | Lookup(addr: Addr, now: int)
    | RemoveExpired(now: int, timeout: Duration)

  /** `owners[q]` is the address for which channel q was made. */
  datatype State = State(table: Table, owners: seq<Addr>)

  function Step(s: State, c: Call): State {
    match c
    case Lookup(a, now) =>
      State(Touch(s.table, a, now, |s.owners|), if a in s.table then s.owners else s.owners + [a])
    case RemoveExpired(now, timeout) =>
      s.(table := Sweep(s.table, now, timeout))
  }

  /** The state after the first `n` calls of a run that starts empty. */
  function After(calls: seq<Call>, n: nat): State
    requires n <= |calls|
  {
    if n == 0 then State(map[], []) else Step(After(calls, n - 1), calls[n - 1])
  }

  /** The channel that call `i`, a lookup, returns. */
  function Answer(calls: seq<Call>, i: nat): QueueId
    requires i < |calls| && calls[i].Lookup?
  {
    After(calls, i + 1).table[calls[i].addr].queue
  }

  ghost predicate Owned(s: State) {
    forall a :: a in s.table ==> s.table[a].queue < |s.owners| && s.owners[s.table[a].queue] == a
  }

  lemma StepOwned(s: State, c: Call)
    requires Owned(s)
    ensures Owned(Step(s, c))
  {
  }

  lemma {:induction false} OwnedAlways(calls: seq<Call>, n: nat)
    requires n <= |calls|
    ensures Owned(After(calls, n))
  {
    if n == 0 {
    } else {
      OwnedAlways(calls, n - 1);
      StepOwned(After(calls, n - 1), calls[n - 1]);
    }
  }

  lemma {:induction false} OwnersGrow(calls: seq<Call>, m: nat, n: nat)
    requires m <= n <= |calls|
    ensures After(calls, m).owners <= After(calls, n).owners
  {
    if m == n {
    } else {
      OwnersGrow(calls, m, n - 1);
    }
  }

  /** Two lookups of different addresses never get the same channel. */
  lemma NoSharedQueue(calls: seq<Call>, i: nat, j: nat)
    requires i < |calls| && j < |calls| && calls[i].Lookup? && calls[j].Lookup?
    requires Answer(calls, i) == Answer(calls, j)
    ensures calls[i].addr == calls[j].addr
  {
    var m := if i < j then i else j;
    var n := if i < j then j else i;
    OwnedAlways(calls, m + 1);
    OwnedAlways(calls, n + 1);
    OwnersGrow(calls, m + 1, n + 1);
  }

  /** The time of the last lookup of `a` among the first `n` calls. */
  function LastLookup(calls: seq<Call>, a: Addr, n: nat): int
    requires n <= |calls|
    requires exists i :: 0 <= i < n && calls[i].Lookup? && calls[i].addr == a
  {
    if calls[n - 1].Lookup? && calls[n - 1].addr == a then calls[n - 1].now
    else LastLookup(calls, a, n - 1)
  }

  /** Call `k` is a sweep late enough to expire a client last looked up when `a` was. */
  predicate SweepsOut(calls: seq<Call>, a: Addr, k: nat)
    requires k < |calls|
    requires exists i :: 0 <= i < k && calls[i].Lookup? && calls[i].addr == a
  {
    calls[k].RemoveExpired? && Expired(calls[k].now, LastLookup(calls, a, k), calls[k].timeout)
  }

  /** No call strictly between `i` and `n` sweeps out the client looked up at `i`. */
  ghost predicate Kept(calls: seq<Call>, i: nat, n: nat)
    requires i < n <= |calls| && calls[i].Lookup?
  {
    forall k :: i < k < n ==> !SweepsOut(calls, calls[i].addr, k)
  }

  lemma AnswerIsOld(calls: seq<Call>, i: nat, n: nat)
    requires i < n <= |calls| && calls[i].Lookup?
    ensures Answer(calls, i) < |After(calls, n).owners|
  {
    OwnedAlways(calls, i + 1);
    OwnersGrow(calls, i + 1, n);
  }

  lemma KeptStep(calls: seq<Call>, i: nat, n: nat)
    requires i + 1 < n <= |calls| && calls[i].Lookup?
    ensures Kept(calls, i, n) <==> Kept(calls, i, n - 1) && !SweepsOut(calls, calls[i].addr, n - 1)
  {
  }

  /** While the client is kept its record carries the time of its last lookup and the channel of
      the first one; once swept out, no record ever names that channel again. */
  lemma {:induction false} RecordAfter(calls: seq<Call>, i: nat, n: nat)
    requires i < n <= |calls| && calls[i].Lookup?
    ensures var a := calls[i].addr; var t := After(calls, n).table;
      if Kept(calls, i, n) then a in t && t[a] == Entry(LastLookup(calls, a, n), Answer(calls, i))
      else a in t ==> t[a].queue != Answer(calls, i) && t[a].lastSeen == LastLookup(calls, a, n)
  {
    if i + 1 == n {
    } else {
      RecordAfter(calls, i, n - 1);
      KeptStep(calls, i, n);
      AnswerIsOld(calls, i, n - 1);
    }
  }

  /** Two lookups of one address get the same channel exactly when no sweep between them came
      `timeout` or more after the latest lookup before that sweep. */
  lemma SameQueueIff(calls: seq<Call>, i: nat, j: nat)
    requires i < j < |calls| && calls[i].Lookup? && calls[j].Lookup? && calls[i].addr == calls[j].addr
    ensures Answer(calls, i) == Answer(calls, j) <==> Kept(calls, i, j)
  {
    RecordAfter(calls, i, j);
    AnswerIsOld(calls, i, j);
  }
}
