/** The indexed expiry heap: `byAge` is a binary min-heap of records ordered by last-seen time,
    `byAddr` says where in it each address is. The methods on it that are not in the repository's
    own file are those of Go's container/heap, which drives it. */
module ClientMap {
  import opened ClientTable

  class ClientRecord {
    const addr: Addr
    var lastSeen: int
    const sendQueue: QueueId

    constructor (addr: Addr, lastSeen: int, sendQueue: QueueId)
      ensures this.addr == addr && this.lastSeen == lastSeen && this.sendQueue == sendQueue
    {
      this.addr, this.lastSeen, this.sendQueue := addr, lastSeen, sendQueue;
    }
  }

  /** The heap parent; the truncating `(j - 1) / 2` of container/heap is 0 at the root. */
  function Parent(j: nat): nat {
    if j == 0 then 0 else (j - 1) / 2
  }

  // ----- heaps of times -----

  /** Within the first `n` times, every one but those at `hole` and right below it is no older
      than its parent, and what is right below `hole` is no older than what is right above it. */
  ghost predicate OrderedAround(t: seq<int>, n: nat, hole: nat)
    requires n <= |t|
  {
    && (forall k {:trigger Parent(k)} :: 0 < k < n && k != hole && Parent(k) != hole ==> t[Parent(k)] <= t[k])
    && (forall k {:trigger Parent(k)} :: 0 < k < n && Parent(k) == hole && 0 < hole ==> t[Parent(hole)] <= t[k])
  }

  /** Nothing right below `i` is older than `i`. */
  ghost predicate OrderedBelow(t: seq<int>, n: nat, i: nat)
    requires n <= |t|
  {
    forall k {:trigger Parent(k)} :: 0 < k < n && Parent(k) == i ==> t[i] <= t[k]
  }

  ghost predicate Heap(t: seq<int>, n: nat)
    requires n <= |t|
  {
    forall k {:trigger Parent(k)} :: 0 < k < n ==> t[Parent(k)] <= t[k]
  }

  lemma {:induction false} RootIsOldest(t: seq<int>, k: nat)
    requires k < |t| && Heap(t, |t|)
    ensures t[0] <= t[k]
  {
    if k == 0 {
    } else {
      RootIsOldest(t, Parent(k));
    }
  }

  /** Any change at one place of a heap leaves it ordered around that place. */
  lemma ChangeMakesHole(t: seq<int>, i: nat, now: int)
    requires i < |t| && Heap(t, |t|)
    ensures OrderedAround(t[i := now], |t|, i)
  {
  }

  function Swapped<T>(s: seq<T>, i: nat, j: nat): seq<T>
    requires i < |s| && j < |s|
  {
    s[i := s[j]][j := s[i]]
  }

  /** Exchanging an out-of-order time with the oldest one right below it moves the hole down. */
  lemma HoleMovesDown(t: seq<int>, n: nat, i: nat, j: nat)
    requires n <= |t| && 0 < j < n && Parent(j) == i
    requires OrderedAround(t, n, i)
    requires forall k {:trigger Parent(k)} :: 0 < k < n && Parent(k) == i ==> t[j] <= t[k]
    requires t[j] < t[i]
    ensures OrderedAround(Swapped(t, i, j), n, j)
    ensures Swapped(t, i, j)[i] <= Swapped(t, i, j)[j]
  {
  }

  /** Swapping root and last, as `heap.Pop` does, leaves all but the last ordered around the root. */
  lemma RootSwapMakesHole(t: seq<int>)
    requires 0 < |t| && Heap(t, |t|)
    ensures OrderedAround(Swapped(t, 0, |t| - 1), |t| - 1, 0)
  {
  }

  /** A hole in order with what is above and below it is no hole. */
  lemma HoleSettled(t: seq<int>, n: nat, i: nat)
    requires n <= |t| && OrderedAround(t, n, i) && OrderedBelow(t, n, i)
    requires 0 < i < n ==> t[Parent(i)] <= t[i]
    ensures Heap(t, n)
  {
  }

  lemma HeapPrefix(t: seq<int>, n: nat)
    requires n <= |t| && Heap(t, n)
    ensures Heap(t[..n], n)
  {
  }

  lemma NoneBelow(t: seq<int>, n: nat, i: nat)
    requires n <= |t| && n <= 2 * i + 1
    ensures OrderedBelow(t, n, i)
  {
  }

  lemma OnlyTwoBelow(t: seq<int>, n: nat, i: nat, j: nat)
    requires 2 * i + 1 < n <= |t| && 2 * i + 1 <= j <= 2 * i + 2 && j < n
    requires j == 2 * i + 1 ==> 2 * i + 2 < n ==> t[j] <= t[2 * i + 2]
    requires j == 2 * i + 2 ==> t[j] <= t[2 * i + 1]
    ensures Parent(j) == i
    ensures forall k {:trigger Parent(k)} :: 0 < k < n && Parent(k) == i ==> t[j] <= t[k]
  {
  }

  /** Exchanging an out-of-order time with the one above it moves the hole up. */
  lemma HoleMovesUp(t: seq<int>, j: nat)
    requires 0 < j < |t|
    requires OrderedAround(t, |t|, j) && OrderedBelow(t, |t|, j)
    requires t[j] < t[Parent(j)]
    ensures var u := Swapped(t, Parent(j), j);
      OrderedAround(u, |t|, Parent(j)) && OrderedBelow(u, |t|, Parent(j))
  {
  }

  // ----- the index -----

  /** `byAddr` is exactly the inverse of `byAge`, and both hold the records of the ghost map. */
  ghost predicate Indexed(byAge: seq<ClientRecord>, byAddr: map<Addr, nat>, records: map<Addr, ClientRecord>) {
    && byAddr.Keys == records.Keys
    && (forall i {:trigger byAge[i]} :: 0 <= i < |byAge| ==> byAge[i].addr in byAddr && byAddr[byAge[i].addr] == i)
    && (forall a {:trigger byAddr[a]} :: a in byAddr ==>
          byAddr[a] < |byAge| && byAge[byAddr[a]] == records[a] && records[a].addr == a)
  }

  /** The two stores of an indexed heap have the same size, so `Len` never panics. */
  lemma {:induction false} IndexedSameSize(
    byAge: seq<ClientRecord>, byAddr: map<Addr, nat>, records: map<Addr, ClientRecord>)
    requires Indexed(byAge, byAddr, records)
    ensures |byAge| == |byAddr|
  {
    if byAge == [] {
      assert byAddr == map[];
    } else {
      var n := |byAge| - 1;
      var a := byAge[n].addr;
      var rest := byAddr - {a};
      assert byAddr.Keys == rest.Keys + {a};
      IndexedSameSize(byAge[..n], rest, records - {a});
    }
  }

  lemma SwapIndexed(byAge: seq<ClientRecord>, byAddr: map<Addr, nat>, records: map<Addr, ClientRecord>, i: nat, j: nat)
    requires Indexed(byAge, byAddr, records) && i < |byAge| && j < |byAge|
    ensures Indexed(Swapped(byAge, i, j), byAddr[byAge[j].addr := i][byAge[i].addr := j], records)
  {
  }

  lemma PopIndexed(byAge: seq<ClientRecord>, byAddr: map<Addr, nat>, records: map<Addr, ClientRecord>)
    requires Indexed(byAge, byAddr, records) && byAge != []
    ensures var n := |byAge| - 1; var a := byAge[n].addr;
      Indexed(byAge[..n], byAddr - {a}, records - {a})
  {
  }

  /** The table a map of records stands for. */
  ghost function TableOf(records: map<Addr, ClientRecord>): Table
    reads records.Values
  {
    map a | a in records :: Entry(records[a].lastSeen, records[a].sendQueue)
  }

  lemma TableOfInsert(records: map<Addr, ClientRecord>, r: ClientRecord)
    requires r.addr !in records
    ensures TableOf(records[r.addr := r]) == TableOf(records)[r.addr := Entry(r.lastSeen, r.sendQueue)]
  {
  }

  /** Dropping exactly the expired records sweeps the table. */
  lemma TableOfSurvivors(all: map<Addr, ClientRecord>, rest: map<Addr, ClientRecord>, now: int, timeout: Duration)
    requires forall a :: a in rest ==> a in all && rest[a] == all[a] && !Expired(now, rest[a].lastSeen, timeout)
    requires forall a :: a in all && a !in rest ==> Expired(now, all[a].lastSeen, timeout)
    ensures TableOf(rest) == Sweep(TableOf(all), now, timeout)
  {
  }

  /** The answers of the first calls of a run are right. */
  ghost predicate Answered(calls: seq<Call>, answers: seq<QueueId>) {
    |answers| <= |calls| &&
    forall i :: 0 <= i < |answers| && calls[i].Lookup? ==> answers[i] == Answer(calls, i)
  }

  lemma AnsweredMore(calls: seq<Call>, answers: seq<QueueId>, q: QueueId)
    requires Answered(calls, answers) && |answers| < |calls|
    requires calls[|answers|].Lookup? ==> q == Answer(calls, |answers|)
    ensures Answered(calls, answers + [q])
  {
  }

  class ClientMapInner {
    var byAge: seq<ClientRecord>
    var byAddr: map<Addr, nat>
    var made: QueueId  // how many channels have been made so far
    ghost var records: map<Addr, ClientRecord>  // the record of each address
    ghost var times: seq<int>  // the last-seen times of byAge

    ghost predicate Consistent()
      reads this, byAge
    {
      && Indexed(byAge, byAddr, records)
      && |times| == |byAge|
      && forall i :: 0 <= i < |byAge| ==> byAge[i].lastSeen == times[i]
    }

    ghost predicate Valid()
      reads this, byAge
    {
      Consistent() && Heap(times, |times|)
    }

    /** The abstract value. */
    ghost function Table(): Table
      reads this, records.Values
    {
      TableOf(records)
    }

    constructor ()
      ensures Valid() && Table() == map[] && made == 0 && byAge == []
    {
      byAge, byAddr, made := [], map[], 0;
      records, times := map[], [];
    }

    // ----- heap.Interface -----

    method Len() returns (n: nat)
      requires Consistent()
      ensures n == |byAge| == |byAddr|
    {
      IndexedSameSize(byAge, byAddr, records);
      if |byAge| != |byAddr| {
        assert false;  // panic("inconsistent clientMap")
      }
      n := |byAge|;
    }

    method Less(i: nat, j: nat) returns (b: bool)
      requires i < |byAge| && j < |byAge|
      ensures b <==> byAge[i].lastSeen < byAge[j].lastSeen
    {
      b := byAge[i].lastSeen < byAge[j].lastSeen;
    }

    method Swap(i: nat, j: nat)
      requires Consistent() && i < |byAge| && j < |byAge|
      modifies this`byAge, this`byAddr, this`times
      ensures Consistent()
      ensures byAge == Swapped(old(byAge), i, j) && times == Swapped(old(times), i, j)
    {
      SwapIndexed(byAge, byAddr, records, i, j);
      byAge := Swapped(byAge, i, j);
      assert byAge[i] == old(byAge[j]) && byAge[j] == old(byAge[i]);
      byAddr := byAddr[byAge[i].addr := i];
      byAddr := byAddr[byAge[j].addr := j];
      assert Indexed(byAge, byAddr, records);
      times := Swapped(times, i, j);
    }

    method Push(record: ClientRecord)
      requires Consistent() && record.addr !in byAddr
      modifies this`byAge, this`byAddr, this`times, this`records
      ensures Consistent()
      ensures byAge == old(byAge) + [record] && times == old(times) + [record.lastSeen]
      ensures records == old(records)[record.addr := record]
    {
      if record.addr in byAddr {
        assert false;  // panic("duplicate address in clientMap")
      }
      byAddr := byAddr[record.addr := |byAge|];
      byAge := byAge + [record];
      times := times + [record.lastSeen];
      records := records[record.addr := record];
    }

    method Pop() returns (record: ClientRecord)
      requires Consistent() && 0 < |byAge|
      modifies this`byAge, this`byAddr, this`times, this`records
      ensures Consistent()
      ensures record == old(byAge[|byAge| - 1])
      ensures byAge == old(byAge[..|byAge| - 1]) && times == old(times[..|times| - 1])
      ensures records == old(records) - {record.addr}
    {
      IndexedSameSize(byAge, byAddr, records);
      PopIndexed(byAge, byAddr, records);
      var n := |byAddr|;
      record := byAge[n - 1];
      byAge := byAge[..n - 1];
      byAddr := byAddr - {record.addr};
      times := times[..n - 1];
      records := records - {record.addr};
    }

    // ----- container/heap -----

    /** One turn of the loop of `up`; it ends the loop when it returns `j` itself. */
    method StepUp(j: nat) returns (i: nat)
      requires Consistent() && j < |byAge|
      requires OrderedAround(times, |times|, j) && OrderedBelow(times, |times|, j)
      modifies this`byAge, this`byAddr, this`times
      ensures Consistent() && |byAge| == old(|byAge|) && i <= j
      ensures OrderedAround(times, |times|, i) && OrderedBelow(times, |times|, i)
      ensures i == j && 0 < j ==> times[Parent(j)] <= times[j]
    {
      i := Parent(j);
      if i == j {
        return;
      }
      var less := Less(j, i);
      if !less {
        return j;
      }
      HoleMovesUp(times, j);
      Swap(i, j);
    }

    method SiftUp(j0: nat)
      requires Consistent() && j0 < |byAge|
      requires OrderedAround(times, |times|, j0) && OrderedBelow(times, |times|, j0)
      modifies this`byAge, this`byAddr, this`times
      ensures Valid() && |byAge| == old(|byAge|)
    {
      var j: nat := j0;
      while true
        invariant Consistent() && j < |byAge| == old(|byAge|)
        invariant OrderedAround(times, |times|, j) && OrderedBelow(times, |times|, j)
        decreases j
      {
        var i := StepUp(j);
        if i == j {
          HoleSettled(times, |times|, j);
          return;
        }
        j := i;
      }
    }

    method OldestBelow(i: nat, n: nat) returns (j: nat)
      requires Consistent() && 2 * i + 1 < n <= |byAge|
      ensures i < j < n && Parent(j) == i
      ensures forall k {:trigger Parent(k)} :: 0 < k < n && Parent(k) == i ==> times[j] <= times[k]
    {
      var j1 := 2 * i + 1;
      j := j1;
      var j2 := j1 + 1;
      if j2 < n {
        var right := Less(j2, j1);
        if right { j := j2; }
      }
      OnlyTwoBelow(times, n, i, j);
    }

    /** One turn of the loop of `down`; it ends the loop when it returns `i` itself. */
    method StepDown(i: nat, n: nat) returns (j: nat)
      requires Consistent() && n <= |byAge| && OrderedAround(times, n, i)
      modifies this`byAge, this`byAddr, this`times
      ensures Consistent() && |byAge| == old(|byAge|) && OrderedAround(times, n, j)
      ensures if j == i then byAge == old(byAge) && times == old(times) && OrderedBelow(times, n, i)
              else i < j < n && times[Parent(j)] <= times[j]
      ensures forall k :: n <= k < |byAge| ==> byAge[k] == old(byAge[k])
    {
      j := i;
      if 2 * i + 1 >= n {
        NoneBelow(times, n, i);
        return;
      }
      var child := OldestBelow(i, n);
      var less := Less(child, i);
      if !less { return; }
      HoleMovesDown(times, n, i, child);
      Swap(i, child);
      j := child;
    }

    method SiftDown(i0: nat, n: nat) returns (moved: bool)
      requires Consistent() && n <= |byAge| && OrderedAround(times, n, i0)
      modifies this`byAge, this`byAddr, this`times
      ensures Consistent() && |byAge| == old(|byAge|)
      ensures forall k :: n <= k < |byAge| ==> byAge[k] == old(byAge[k])
      ensures if moved then Heap(times, n)
              else byAge == old(byAge) && times == old(times) && OrderedBelow(times, n, i0)
    {
      var i: nat := i0;
      while true
        invariant Consistent() && i0 <= i && |byAge| == old(|byAge|)
        invariant forall k :: n <= k < |byAge| ==> byAge[k] == old(byAge[k])
        invariant if i == i0 then byAge == old(byAge) && times == old(times)
                  else i < n && times[Parent(i)] <= times[i]
        invariant OrderedAround(times, n, i)
        decreases |byAge| - i
      {
        var j := StepDown(i, n);
        if j == i {
          if i > i0 { HoleSettled(times, n, i); }
          return i > i0;
        }
        i := j;
      }
    }

    /** `heap.Push`. */
    method HeapPush(record: ClientRecord)
      requires Valid() && record.addr !in byAddr
      modifies this`byAge, this`byAddr, this`times, this`records
      ensures Valid() && records == old(records)[record.addr := record]
    {
      Push(record);
      var n := Len();
      SiftUp(n - 1);
    }

    /** The part of `heap.Pop` before the user's Pop: the root goes last, the rest is a heap. */
    method RootToLast(n: nat)
      requires Valid() && n + 1 == |byAge|
      modifies this`byAge, this`byAddr, this`times
      ensures Consistent() && |byAge| == old(|byAge|) && byAge[n] == old(byAge[0]) && Heap(times, n)
    {
      RootSwapMakesHole(times);
      Swap(0, n);
      var moved := SiftDown(0, n);
      if !moved {
        HoleSettled(times, n, 0);
      }
    }

    /** `heap.Pop`. */
    method HeapPop() returns (record: ClientRecord)
      requires Valid() && 0 < |byAge|
      modifies this`byAge, this`byAddr, this`times, this`records
      ensures record == old(byAge[0]) && |byAge| == old(|byAge|) - 1
      ensures Valid() && records == old(records) - {record.addr}
    {
      var len := Len();
      var n := len - 1;
      RootToLast(n);
      HeapPrefix(times, n);
      record := Pop();
    }

    /** `heap.Fix`: whatever happened to the record at `i`, order is restored. */
    method HeapFix(i: nat)
      requires Consistent() && i < |byAge| && OrderedAround(times, |times|, i)
      modifies this`byAge, this`byAddr, this`times
      ensures Valid()
    {
      var n := Len();
      var moved := SiftDown(i, n);
      if !moved {
        SiftUp(i);
      }
    }

    // ----- clientMapInner -----

    method RemoveExpired(now: int, timeout: Duration)
      requires Valid()
      modifies this`byAge, this`byAddr, this`times, this`records
      ensures Valid() && Table() == Sweep(old(Table()), now, timeout)
      ensures forall a :: a in records ==> a in old(records) && records[a] == old(records)[a]
    {
      while |byAge| > 0 && Sub(now, byAge[0].lastSeen) >= timeout
        invariant Valid()
        invariant forall a :: a in records ==> a in old(records) && records[a] == old(records)[a]
        invariant forall a :: a in old(records) && a !in records ==>
                    Expired(now, old(records)[a].lastSeen, timeout)
        decreases |byAge|
      {
        var _ := HeapPop();
      }
      forall a | a in records
        ensures !Expired(now, records[a].lastSeen, timeout)
      {
        RootIsOldest(times, byAddr[a]);
      }
      TableOfSurvivors(old(records), records, now, timeout);
    }

    /** A new last-seen time for the record at `i`, whatever that does to the order. */
    method Retime(i: nat, now: int)
      requires Valid() && i < |byAge|
      modifies byAge[i], this`times
      ensures Consistent() && OrderedAround(times, |times|, i)
      ensures Table() == old(Table())[byAge[i].addr := Entry(now, byAge[i].sendQueue)]
    {
      ChangeMakesHole(times, i, now);
      assert forall a :: a in records && a != byAge[i].addr ==> records[a] != byAge[i];
      byAge[i].lastSeen := now;
      times := times[i := now];
    }

    /** The branch of SendQueue for a known address. */
    method Refresh(addr: Addr, now: int) returns (record: ClientRecord)
      requires Valid() && addr in byAddr
      modifies this`byAge, this`byAddr, this`times, byAge
      ensures Valid() && record == records[addr]
      ensures Table() == old(Table())[addr := Entry(now, record.sendQueue)]
    {
      var i := byAddr[addr];
      record := byAge[i];
      Retime(i, now);
      HeapFix(i);
    }

    /** The branch of SendQueue for a new address. */
    method Create(addr: Addr, now: int) returns (record: ClientRecord)
      requires Valid() && addr !in byAddr
      modifies this
      ensures Valid() && fresh(record) && records == old(records)[addr := record]
      ensures record.sendQueue == old(made) && made == old(made) + 1
      ensures Table() == old(Table())[addr := Entry(now, old(made))]
    {
      record := new ClientRecord(addr, now, made);
      made := made + 1;
      TableOfInsert(records, record);
      assert TableOf(records[addr := record]) == old(Table())[addr := Entry(now, old(made))];
      HeapPush(record);
    }

    method SendQueue(addr: Addr, now: int) returns (q: QueueId)
      requires Valid()
      modifies this, byAge
      ensures Valid() && addr in Table() && q == Table()[addr].queue
      ensures Table() == Touch(old(Table()), addr, now, old(made))
      ensures made == old(made) + if addr in old(Table()) then 0 else 1
      ensures forall a :: a in records ==> fresh(records[a]) || (a in old(records) && records[a] == old(records)[a])
    {
      var record;
      if addr in byAddr {
        record := Refresh(addr, now);
      } else {
        record := Create(addr, now);
      }
      q := record.sendQueue;
    }

    /** One call of a run, as a step of the specification. */
    method Serve(c: Call, ghost s: State) returns (q: QueueId)
      requires Valid() && Table() == s.table && made == |s.owners|
      modifies this, byAge
      ensures Valid() && Table() == Step(s, c).table && made == |Step(s, c).owners|
      ensures c.Lookup? ==> q == Table()[c.addr].queue
      ensures forall i :: 0 <= i < |byAge| ==> byAge[i] in old(byAge) || fresh(byAge[i])
    {
      match c {
        case Lookup(addr, now) =>
          q := SendQueue(addr, now);
        case RemoveExpired(now, timeout) =>
          RemoveExpired(now, timeout);
          q := 0;
      }
      forall i | 0 <= i < |byAge|
        ensures byAge[i] in old(byAge) || fresh(byAge[i])
      {
        var a := byAge[i].addr;
        assert byAge[i] == records[a];
        assert a in old(records) ==> old(byAge[byAddr[a]]) == old(records[a]);
      }
    }
  }

  /** Any run of lookups and sweeps on a new map, at any times, gives the answers and the table
      of the specification. */
  method RunCalls(calls: seq<Call>) returns (m: ClientMapInner, answers: seq<QueueId>)
    ensures m.Valid() && m.Table() == After(calls, |calls|).table
    ensures |answers| == |calls| && Answered(calls, answers)
  {
    m := new ClientMapInner();
    answers := [];
    for n := 0 to |calls|
      invariant m.Valid() && fresh(m) && forall i :: 0 <= i < |m.byAge| ==> fresh(m.byAge[i])
      invariant m.Table() == After(calls, n).table && m.made == |After(calls, n).owners|
      invariant |answers| == n && Answered(calls, answers)
    {
      var q := m.Serve(calls[n], After(calls, n));
      assert After(calls, n + 1) == Step(After(calls, n), calls[n]);
      AnsweredMore(calls, answers, q);
      answers := answers + [q];
    }
  }
}
