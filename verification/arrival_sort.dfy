/**
 Stable sorting of process descriptors by arrival time, as both disciplines do
 before anything else (`sorted(..., key=arrival)`, which is stable).

 Stability is stated key by key: for every arrival time `k`, the processes that
 arrive at `k` appear in the output in exactly the order they had in the input.
 Together with sortedness this determines the output completely
 (`StableSortIsUnique`).
 */
module ArrivalSort {
  import opened Processes

  /** Arrival times never decrease along `s`. */
  predicate SortedByArrival(s: seq<Process>) {
    forall i, j :: 0 <= i < j < |s| ==> s[i].arrival <= s[j].arrival
  }

  /** The processes of `s` that arrive at time `k`, in their order in `s`. */
  function ArrivingAt(s: seq<Process>, k: int): seq<Process> {
    if s == [] then []
    else if s[0].arrival == k then [s[0]] + ArrivingAt(s[1..], k)
    else ArrivingAt(s[1..], k)
  }

  /** `s` and `t` hold, for every arrival time, the same processes in the same order. */
  ghost predicate SameArrivalOrder(s: seq<Process>, t: seq<Process>) {
    forall k :: ArrivingAt(s, k) == ArrivingAt(t, k)
  }

  /** Places `p` in front of the first element of `s` that arrives no earlier than it. */
  function Insert(p: Process, s: seq<Process>): (r: seq<Process>)
    ensures multiset(r) == multiset(s) + multiset{p}
    ensures |r| == |s| + 1
  {
    if s == [] || p.arrival <= s[0].arrival then [p] + s
    else
      assert s == [s[0]] + s[1..];
      [s[0]] + Insert(p, s[1..])
  }

  lemma {:induction false} InsertSorted(p: Process, s: seq<Process>)
    requires SortedByArrival(s)
    ensures SortedByArrival(Insert(p, s))
  {
    if s == [] || p.arrival <= s[0].arrival {
    } else {
      var tail := Insert(p, s[1..]);
      InsertSorted(p, s[1..]);
      forall j | 0 <= j < |tail|
        ensures s[0].arrival <= tail[j].arrival
      {
        assert tail[j] in multiset(tail);
        if tail[j] != p {
          assert tail[j] in multiset(s[1..]);
          assert tail[j] in s[1..];
        }
      }
    }
  }

  lemma {:induction false} InsertArrivingAt(p: Process, s: seq<Process>, k: int)
    ensures ArrivingAt(Insert(p, s), k)
         == if p.arrival == k then [p] + ArrivingAt(s, k) else ArrivingAt(s, k)
  {
    if s == [] || p.arrival <= s[0].arrival {
      assert ([p] + s)[1..] == s;
    } else {
      InsertArrivingAt(p, s[1..], k);
      assert ([s[0]] + Insert(p, s[1..]))[1..] == Insert(p, s[1..]);
    }
  }

  /** Python's `sorted(ps, key=arrival)`: an insertion sort that keeps equal
      arrivals in input order. */
  function SortByArrival(ps: seq<Process>): (r: seq<Process>)
    ensures SortedByArrival(r)
    ensures multiset(r) == multiset(ps)
    ensures SameArrivalOrder(r, ps)
    decreases |ps|
  {
    if ps == [] then []
    else
      var rest := SortByArrival(ps[1..]);
      InsertSorted(ps[0], rest);
      assert ps == [ps[0]] + ps[1..];
      assert forall k :: ArrivingAt(Insert(ps[0], rest), k) == ArrivingAt(ps, k) by {
        forall k ensures ArrivingAt(Insert(ps[0], rest), k) == ArrivingAt(ps, k) {
          InsertArrivingAt(ps[0], rest, k);
        }
      }
      Insert(ps[0], rest)
  }

  lemma {:induction false} ArrivingAtHead(s: seq<Process>)
    requires s != []
    ensures ArrivingAt(s, s[0].arrival) == [s[0]] + ArrivingAt(s[1..], s[0].arrival)
  {
  }

  /** Every process arriving at `k` lies in `s`. */
  lemma {:induction false} ArrivingAtMembers(s: seq<Process>, k: int, x: Process)
    requires x in ArrivingAt(s, k)
    ensures x in s && x.arrival == k
  {
    if s != [] && s[0].arrival == k && x != s[0] {
      ArrivingAtMembers(s[1..], k, x);
    } else if s != [] && s[0].arrival != k {
      ArrivingAtMembers(s[1..], k, x);
    }
  }

  lemma SortedTail(s: seq<Process>)
    requires SortedByArrival(s) && s != []
    ensures SortedByArrival(s[1..])
  {
  }

  /** A sorted sequence whose arrivals are, key by key, those of another sorted
      sequence in the same order, is that sequence: the stable sort by arrival is
      unique. */
  lemma {:induction false} StableSortIsUnique(a: seq<Process>, b: seq<Process>)
    requires SortedByArrival(a) && SortedByArrival(b)
    requires SameArrivalOrder(a, b)
    ensures a == b
    decreases |a| + |b|
  {
    if a == [] && b == [] {
    } else if a == [] {
      // The head of `b` arrives at a time at which nothing in `a` arrives.
      ArrivingAtHead(b);
      assert false;
    } else if b == [] {
      ArrivingAtHead(a);
      assert false;
    } else {
      var ka, kb := a[0].arrival, b[0].arrival;
      ArrivingAtHead(a);
      ArrivingAtHead(b);
      // The earlier of the two heads fixes the key both sequences start with.
      if ka < kb {
        assert a[0] in ArrivingAt(b, ka);
        ArrivingAtMembers(b, ka, a[0]);
        assert false;
      } else if kb < ka {
        assert b[0] in ArrivingAt(a, kb);
        ArrivingAtMembers(a, kb, b[0]);
        assert false;
      } else {
        assert ArrivingAt(a, ka) == ArrivingAt(b, ka);
        assert ArrivingAt(a, ka)[0] == a[0] && ArrivingAt(b, kb)[0] == b[0];
        forall k
          ensures ArrivingAt(a[1..], k) == ArrivingAt(b[1..], k)
        {
          if k != ka {
            assert ArrivingAt(a, k) == ArrivingAt(a[1..], k);
            assert ArrivingAt(b, k) == ArrivingAt(b[1..], k);
          } else {
            assert [a[0]] + ArrivingAt(a[1..], k) == [b[0]] + ArrivingAt(b[1..], k);
            assert ArrivingAt(a[1..], k) == ([a[0]] + ArrivingAt(a[1..], k))[1..];
            assert ArrivingAt(b[1..], k) == ([b[0]] + ArrivingAt(b[1..], k))[1..];
          }
        }
        SortedTail(a);
        SortedTail(b);
        StableSortIsUnique(a[1..], b[1..]);
        assert a == [a[0]] + a[1..];
        assert b == [b[0]] + b[1..];
      }
    }
  }

  /** Any arrangement of `ps` that is sorted by arrival and keeps equal arrivals in
      input order is exactly what `SortByArrival` returns. */
  lemma StableSortReference(ps: seq<Process>, s: seq<Process>)
    requires SortedByArrival(s)
    requires SameArrivalOrder(s, ps)
    ensures s == SortByArrival(ps)
  {
    var r := SortByArrival(ps);
    assert SameArrivalOrder(s, r) by {
      forall k ensures ArrivingAt(s, k) == ArrivingAt(r, k) {
        assert ArrivingAt(s, k) == ArrivingAt(ps, k);
        assert ArrivingAt(r, k) == ArrivingAt(ps, k);
      }
    }
    StableSortIsUnique(s, r);
  }
}
