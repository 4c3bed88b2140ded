/** Sessions as the scheduler orders them: by priority, then by id. */
module Jobs {

  /** What the scheduler's session set stores of a session. */
  datatype Job = Job(priority: int, id: string)

  /** Go's `<` on strings: lexicographic order of their elements. */
  predicate StringLess(a: string, b: string)
  {
    |b| > 0 && (|a| == 0 || a[0] < b[0] || (a[0] == b[0] && StringLess(a[1..], b[1..])))
  }

  /** The comparator of the ordered session set: negative, zero or positive. */
  function Compare(a: Job, b: Job): int
  {
    if a.priority < b.priority then -1
    else if a.priority > b.priority then 1
    else if StringLess(a.id, b.id) then -1
    else if StringLess(b.id, a.id) then 1
    else 0
  }

  /** `j` is the first element an ordered iteration over `queue` yields. */
  ghost predicate IsLeast(j: Job, queue: set<Job>)
  {
    j in queue && forall k :: k in queue ==> Compare(j, k) <= 0
  }

  lemma {:induction false} StringLessTrichotomy(a: string, b: string)
    ensures !(StringLess(a, b) && StringLess(b, a))
    ensures !StringLess(a, b) && !StringLess(b, a) <==> a == b
  {
    if |a| > 0 && |b| > 0 && a[0] == b[0] {
      StringLessTrichotomy(a[1..], b[1..]);
      assert a == [a[0]] + a[1..] && b == [b[0]] + b[1..];
    }
  }

  lemma {:induction false} StringLessTransitive(a: string, b: string, c: string)
    requires StringLess(a, b) && StringLess(b, c)
    ensures StringLess(a, c)
  {
    if |a| > 0 && a[0] == b[0] == c[0] {
      StringLessTransitive(a[1..], b[1..], c[1..]);
    }
  }

  /** `a` and `b` agree on their first `k` characters, where `a` ends or has the smaller one. */
  ghost predicate LessAt(a: string, b: string, k: nat)
  {
    k <= |a| && k < |b| && a[..k] == b[..k] && (k == |a| || a[k] < b[k])
  }

  /** One string is less than another at the first position where they differ. */
  lemma {:induction false} StringLessIff(a: string, b: string)
    ensures StringLess(a, b) <==> exists k: nat :: LessAt(a, b, k)
    decreases |b|
  {
    if StringLess(a, b) {
      if |a| == 0 || a[0] < b[0] {
        assert LessAt(a, b, 0);
      } else {
        StringLessIff(a[1..], b[1..]);
        var k: nat :| LessAt(a[1..], b[1..], k);
        assert a[..k + 1] == [a[0]] + a[1..][..k] && b[..k + 1] == [b[0]] + b[1..][..k];
        assert LessAt(a, b, k + 1);
      }
    } else if k: nat :| LessAt(a, b, k) {
      assert k > 0 ==> a[..k][0] == b[..k][0] && a[..k][1..] == b[..k][1..];
      assert k > 0 ==> a[1..][..k - 1] == a[..k][1..] && b[1..][..k - 1] == b[..k][1..];
      if k > 0 {
        assert LessAt(a[1..], b[1..], k - 1);
        StringLessIff(a[1..], b[1..]);
      }
    }
  }

  /** The comparator is a total order, by priority first and then by id, whose ties are
      exactly the equal keys. */
  lemma CompareIsTotalOrder(a: Job, b: Job, c: Job)
    ensures Compare(a, b) == -Compare(b, a)
    ensures Compare(a, b) == 0 <==> a == b
    ensures Compare(a, b) <= 0 && Compare(b, c) <= 0 ==> Compare(a, c) <= 0
    ensures Compare(a, b) < 0 <==> a.priority < b.priority || (a.priority == b.priority && StringLess(a.id, b.id))
  {
    StringLessTrichotomy(a.id, b.id);
    StringLessTrichotomy(b.id, c.id);
    StringLessTrichotomy(a.id, c.id);
    if StringLess(a.id, b.id) && StringLess(b.id, c.id) {
      StringLessTransitive(a.id, b.id, c.id);
    }
  }

  /** Every non-empty queue has exactly one first element. */
  lemma {:induction false} LeastExists(queue: set<Job>) returns (j: Job)
    requires queue != {}
    ensures IsLeast(j, queue)
    ensures forall k :: IsLeast(k, queue) ==> k == j
  {
    var x :| x in queue;
    if queue == {x} {
      CompareIsTotalOrder(x, x, x);
      j := x;
    } else {
      assert queue - {x} != {} by {
        var y :| y in queue && y != x;
        assert y in queue - {x};
      }
      var y := LeastExists(queue - {x});
      CompareIsTotalOrder(x, y, x);
      CompareIsTotalOrder(x, x, x);
      j := if Compare(x, y) <= 0 then x else y;
      forall k | k in queue ensures Compare(j, k) <= 0 {
        if k != x {
          assert k in queue - {x};
          CompareIsTotalOrder(x, y, k);
        }
      }
    }
    forall k | IsLeast(k, queue) ensures k == j {
      CompareIsTotalOrder(j, k, j);
    }
  }
}
