/** A buffered Go channel used with nonblocking sends: full means drop. Its history records every
    attempt to send, whether it was kept, and every receive. */
module LossyQueue {

  const QUEUE_SIZE: nat := 32

  datatype Use<T> = Offered(x: T, kept: bool) | Taken(x: T)

  datatype Queue<T> = Queue(items: seq<T>, history: seq<Use<T>>)

  function Empty<T>(): Queue<T> {
    Queue([], [])
  }

  /** `select { case q <- x: default: }` */
  function Offer<T>(q: Queue<T>, x: T): Queue<T> {
    if |q.items| < QUEUE_SIZE then Queue(q.items + [x], q.history + [Offered(x, true)])
    else q.(history := q.history + [Offered(x, false)])
  }

  /** `<-q` */
  function Take<T>(q: Queue<T>): Queue<T>
    requires q.items != []
  {
    Queue(q.items[1..], q.history + [Taken(q.items[0])])
  }

  /** What was kept, in order. */
  function Kept<T>(h: seq<Use<T>>): seq<T> {
    if h == [] then []
    else
      var u := h[|h| - 1];
      Kept(h[..|h| - 1]) + if u.Offered? && u.kept then [u.x] else []
  }

  /** Everything offered, kept or not, in order. */
  function Offers<T>(h: seq<Use<T>>): seq<T> {
    if h == [] then []
    else
      var u := h[|h| - 1];
      Offers(h[..|h| - 1]) + if u.Offered? then [u.x] else []
  }

  /** What was received, in order. */
  function Received<T>(h: seq<Use<T>>): seq<T> {
    if h == [] then []
    else
      var u := h[|h| - 1];
      Received(h[..|h| - 1]) + if u.Taken? then [u.x] else []
  }

  /** A history of a first-in first-out queue that drops exactly what finds it full: what is
      received is always the oldest thing kept and not yet received. */
  ghost predicate Lawful<T>(h: seq<Use<T>>) {
    && Received(h) <= Kept(h)
    && |Kept(h)| - |Received(h)| <= QUEUE_SIZE
    && (h != [] ==>
          var before := h[..|h| - 1];
          && Lawful(before)
          && (h[|h| - 1].Offered? ==> (h[|h| - 1].kept <==> |Kept(before)| - |Received(before)| < QUEUE_SIZE)))
  }

  ghost predicate Valid<T>(q: Queue<T>) {
    Lawful(q.history) && Kept(q.history) == Received(q.history) + q.items
  }

  lemma OfferValid<T>(q: Queue<T>, x: T)
    requires Valid(q)
    ensures Valid(Offer(q, x))
    ensures Received(Offer(q, x).history) == Received(q.history)
    ensures Offers(Offer(q, x).history) == Offers(q.history) + [x]
  {
  }

  lemma TakeValid<T>(q: Queue<T>)
    requires Valid(q) && q.items != []
    ensures Valid(Take(q))
    ensures Received(Take(q).history) == Received(q.history) + [q.items[0]]
    ensures Offers(Take(q).history) == Offers(q.history)
  {
  }

  // ----- in-order selections -----

  /** `a` is what remains of `b` after leaving some of it out. */
  ghost predicate Subseq<T>(a: seq<T>, b: seq<T>) {
    if a == [] then true
    else if b == [] then false
    else
      || Subseq(a, b[..|b| - 1])
      || (a[|a| - 1] == b[|b| - 1] && Subseq(a[..|a| - 1], b[..|b| - 1]))
  }

  lemma SubseqSnoc<T>(a: seq<T>, b: seq<T>, x: T)
    requires Subseq(a, b)
    ensures Subseq(a, b + [x]) && Subseq(a + [x], b + [x])
  {
  }

  lemma {:induction false} SubseqTransitive<T>(a: seq<T>, b: seq<T>, c: seq<T>)
    requires Subseq(a, b) && Subseq(b, c)
    ensures Subseq(a, c)
    decreases |b| + |c|
  {
    if a == [] {
    } else {
      var b', c' := b[..|b| - 1], c[..|c| - 1];
      if Subseq(b, c') {
        SubseqTransitive(a, b, c');
      } else if Subseq(a, b') {
        SubseqTransitive(a, b', c');
      } else {
        SubseqTransitive(a[..|a| - 1], b', c');
      }
    }
  }

  lemma {:induction false} SubseqSelf<T>(a: seq<T>)
    ensures Subseq(a, a)
  {
    if a == [] {
    } else {
      SubseqSelf(a[..|a| - 1]);
    }
  }

  lemma {:induction false} PrefixIsSubseq<T>(a: seq<T>, b: seq<T>)
    requires a <= b
    ensures Subseq(a, b)
  {
    if a == b {
      SubseqSelf(a);
    } else {
      PrefixIsSubseq(a, b[..|b| - 1]);
    }
  }

  /** What a queue keeps is an in-order selection of what it is offered. */
  lemma {:induction false} KeptIsSubseq<T>(h: seq<Use<T>>)
    ensures Subseq(Kept(h), Offers(h))
  {
    if h == [] {
    } else {
      var h', u := h[..|h| - 1], h[|h| - 1];
      KeptIsSubseq(h');
      if u.Offered? {
        SubseqSnoc(Kept(h'), Offers(h'), u.x);
      }
      assert Kept(h') + [] == Kept(h') && Offers(h') + [] == Offers(h');
    }
  }
}
