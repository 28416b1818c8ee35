/**
 * The "start at page N" ordering that `FileSearcher.find` hands to Lucene
 * (the anonymous PagedIntComparator subclass): every page at or after the
 * start page comes first, in ascending order, and the earlier pages follow,
 * again ascending. The three comparison entry points are modelled as pure
 * functions of the int values involved; the comparator object, whose slot
 * array and bottom/top values Lucene updates in place, is a class over them.
 * Lucene's top-N collector, which asks the comparator whether a hit beats
 * the bottom of its full queue, is modelled by the hits it keeps.
 */
module PageOrder {
  import opened Common

  /**
   * The intended order, independent of the comparator's branches: `a` is
   * listed strictly before `b` when `a` is in the "from the start page on"
   * group and `b` is not, or both are in the same group and `a < b`.
   */
  predicate Precedes(a: int, b: int, page: int) {
    (a >= page && b < page) || ((a >= page) == (b >= page) && a < b)
  }

  /**
   * `compare(slot1, slot2)` on the two slot values: -1 when `v1` sorts first,
   * 1 when `v2` does, 0 when they tie. Computed by branches only, so it
   * cannot overflow.
   */
  function ComparePages(v1: int, v2: int, page: int): (r: int)
    ensures -1 <= r <= 1
    ensures r == -1 <==> Precedes(v1, v2, page)
    ensures r == 1 <==> Precedes(v2, v1, page)
    ensures r == 0 <==> v1 == v2
    ensures v1 < page <= v2 ==> r == 1
    ensures v2 < page <= v1 ==> r == -1
  {
    if v1 < page && v2 >= page then 1
    else if v1 >= page && v2 < page then -1
    else if v1 > v2 then 1
    else if v1 < v2 then -1
    else 0
  }

  /**
   * `compareBottom(doc)` with the bottom slot's value `bottom` and the
   * document's value `v`: a document before the start page is always
   * reported as sorting after the bottom; otherwise the two are compared by
   * sign.
   */
  function CompareBottomValue(bottom: int, v: int, page: int): (r: int)
    ensures -1 <= r <= 1
    ensures v < page ==> r == -1
    ensures v >= page ==> (r == -1 <==> bottom < v) && (r == 1 <==> bottom > v)
  {
    if v < page then -1
    else if bottom > v then 1
    else if bottom < v then -1
    else 0
  }

  /**
   * `compareTop(doc)` with the top value `top` and the document's value `v`:
   * 1 when the top is before the start page and the document strictly after
   * it, otherwise the sign of `top - v`.
   */
  function CompareTopValue(top: int, v: int, page: int): (r: int)
    ensures -1 <= r <= 1
    ensures top < page < v ==> r == 1
    ensures !(top < page < v) ==> (r == -1 <==> top < v) && (r == 1 <==> top > v)
  {
    if top < page && v > page then 1
    else if top < v then -1
    else if top > v then 1
    else 0
  }

  /** `compare` is reflexive and antisymmetric: swapping the slots negates it. */
  lemma CompareAntisymmetric(a: int, b: int, page: int)
    ensures ComparePages(a, a, page) == 0
    ensures ComparePages(a, b, page) == -ComparePages(b, a, page)
  {
  }

  /** `compare` is transitive, both for "sorts no later" and for "sorts strictly earlier". */
  lemma CompareTransitive(a: int, b: int, c: int, page: int)
    ensures ComparePages(a, b, page) <= 0 && ComparePages(b, c, page) <= 0 ==> ComparePages(a, c, page) <= 0
    ensures ComparePages(a, b, page) < 0 && ComparePages(b, c, page) < 0 ==> ComparePages(a, c, page) < 0
  {
  }

  /** `compare` is total: any two values are ordered one way or the other. */
  lemma CompareTotal(a: int, b: int, page: int)
    ensures ComparePages(a, b, page) <= 0 || ComparePages(b, a, page) <= 0
  {
  }

  /**
   * Lucene calls `compareBottom` in place of `compare(bottomSlot, doc)`; the
   * two agree exactly when the bottom value is at or after the start page,
   * or the document lies strictly between the bottom value and the start page.
   */
  lemma CompareBottomAgreement(bottom: int, v: int, page: int)
    ensures CompareBottomValue(bottom, v, page) == ComparePages(bottom, v, page)
        <==> bottom >= page || bottom < v < page
  {
  }

  /** A bottom value of 1 and a document on page 7, starting at page 5. */
  lemma CompareBottomMisorders()
    ensures ComparePages(1, 7, 5) == 1
    ensures CompareBottomValue(1, 7, 5) == -1
  {
  }

  /**
   * Lucene calls `compareTop` in place of `compare(topSlot, doc)`; the two
   * disagree exactly when the top value is before the start page and the
   * document is on it, or the top value is at or after the start page and
   * the document before it.
   */
  lemma CompareTopAgreement(top: int, v: int, page: int)
    ensures CompareTopValue(top, v, page) != ComparePages(top, v, page)
        <==> (top < page && v == page) || (v < page <= top)
  {
  }

  /** A top value of 3 and a document exactly on the start page 5. */
  lemma CompareTopMisorders()
    ensures ComparePages(3, 5, 5) == 1
    ensures CompareTopValue(3, 5, 5) == -1
  {
  }

  /** Each pair of positions is in `compare` order. */
  ghost predicate SortedByPage<T>(s: seq<T>, key: T -> int, page: int) {
    forall i, j :: 0 <= i < j < |s| ==> ComparePages(key(s[i]), key(s[j]), page) <= 0
  }

  /** Inserts `x` in front of the first element that sorts strictly after it, so behind every element it ties with. */
  function InsertByPage<T>(x: T, s: seq<T>, key: T -> int, page: int): (r: seq<T>)
    ensures multiset(r) == multiset(s) + multiset{x}
    ensures |r| == |s| + 1
  {
    if s == [] then [x]
    else if ComparePages(key(x), key(s[0]), page) < 0 then [x] + s
    else
      assert s == [s[0]] + s[1..];
      [s[0]] + InsertByPage(x, s[1..], key, page)
  }

  /**
   * The hits in `compare` order, ties kept in the order they were found:
   * each hit in turn is inserted behind those already placed that it ties with.
   */
  function SortByPage<T>(s: seq<T>, key: T -> int, page: int): (r: seq<T>)
    ensures multiset(r) == multiset(s)
    ensures |r| == |s|
  {
    if s == [] then []
    else
      var n := |s| - 1;
      assert s == s[..n] + [s[n]];
      InsertByPage(s[n], SortByPage(s[..n], key, page), key, page)
  }

  /** A value that comes no later than `x` and every element of `s` comes no later than any element after the insertion. */
  lemma {:induction false} InsertStaysAbove<T>(v: int, x: T, s: seq<T>, key: T -> int, page: int)
    requires ComparePages(v, key(x), page) <= 0
    requires forall k :: 0 <= k < |s| ==> ComparePages(v, key(s[k]), page) <= 0
    ensures forall k :: 0 <= k < |InsertByPage(x, s, key, page)| ==>
      ComparePages(v, key(InsertByPage(x, s, key, page)[k]), page) <= 0
  {
    if s != [] && ComparePages(key(x), key(s[0]), page) >= 0 {
      var rest := s[1..];
      assert forall k :: 0 <= k < |rest| ==> rest[k] == s[k + 1];
      InsertStaysAbove(v, x, rest, key, page);
    }
  }

  /** A sorted list stays sorted under a head that comes no later than any of its elements. */
  lemma ConsSorted<T>(h: T, t: seq<T>, key: T -> int, page: int)
    requires SortedByPage(t, key, page)
    requires forall k :: 0 <= k < |t| ==> ComparePages(key(h), key(t[k]), page) <= 0
    ensures SortedByPage([h] + t, key, page)
  {
    var r := [h] + t;
    forall i, j | 0 <= i < j < |r| ensures ComparePages(key(r[i]), key(r[j]), page) <= 0 {
      assert r[j] == t[j - 1];
      if i > 0 {
        assert r[i] == t[i - 1];
      }
    }
  }

  /** Insertion keeps a list in `compare` order. */
  lemma {:induction false} InsertKeepsSorted<T>(x: T, s: seq<T>, key: T -> int, page: int)
    requires SortedByPage(s, key, page)
    ensures SortedByPage(InsertByPage(x, s, key, page), key, page)
  {
    if s == [] {
    } else if ComparePages(key(x), key(s[0]), page) < 0 {
      forall k | 0 <= k < |s| ensures ComparePages(key(x), key(s[k]), page) <= 0 {
        CompareTransitive(key(x), key(s[0]), key(s[k]), page);
      }
      ConsSorted(x, s, key, page);
    } else {
      var rest := s[1..];
      assert forall k :: 0 <= k < |rest| ==> rest[k] == s[k + 1];
      InsertKeepsSorted(x, rest, key, page);
      CompareAntisymmetric(key(x), key(s[0]), page);
      InsertStaysAbove(key(s[0]), x, rest, key, page);
      ConsSorted(s[0], InsertByPage(x, rest, key, page), key, page);
    }
  }

  /** The sorted hit list is in `compare` order. */
  lemma {:induction false} SortByPageSorted<T>(s: seq<T>, key: T -> int, page: int)
    ensures SortedByPage(SortByPage(s, key, page), key, page)
  {
    if s != [] {
      var n := |s| - 1;
      SortByPageSorted(s[..n], key, page);
      InsertKeepsSorted(s[n], SortByPage(s[..n], key, page), key, page);
    }
  }

  /** Every stretch at the front of a list in `compare` order is in `compare` order. */
  lemma SortedPrefix<T>(s: seq<T>, m: nat, key: T -> int, page: int)
    requires SortedByPage(s, key, page) && m <= |s|
    ensures SortedByPage(s[..m], key, page)
  {
    forall i, j | 0 <= i < j < m ensures ComparePages(key(s[..m][i]), key(s[..m][j]), page) <= 0 {
      assert s[..m][i] == s[i] && s[..m][j] == s[j];
    }
  }

  /** What is left of a list in `compare` order after its first element is in `compare` order. */
  lemma SortedTail<T>(s: seq<T>, key: T -> int, page: int)
    requires SortedByPage(s, key, page) && s != []
    ensures SortedByPage(s[1..], key, page)
  {
    forall i, j | 0 <= i < j < |s| - 1 ensures ComparePages(key(s[1..][i]), key(s[1..][j]), page) <= 0 {
      assert s[1..][i] == s[i + 1] && s[1..][j] == s[j + 1];
    }
  }

  /**
   * What the doc comment of PagedIntComparator promises of a hit list: every
   * page at or after the start page precedes every page before it, and
   * within each of the two groups pages never decrease.
   */
  ghost predicate WrapOrdered<T>(s: seq<T>, key: T -> int, page: int) {
    forall i, j :: 0 <= i < j < |s| ==>
      && (key(s[j]) >= page ==> key(s[i]) >= page)
      && ((key(s[i]) >= page) == (key(s[j]) >= page) ==> key(s[i]) <= key(s[j]))
  }

  /** A list in `compare` order has the promised shape. */
  lemma SortedWrapsAtPage<T>(s: seq<T>, key: T -> int, page: int)
    requires SortedByPage(s, key, page)
    ensures WrapOrdered(s, key, page)
  {
    forall i, j | 0 <= i < j < |s|
      ensures key(s[j]) >= page ==> key(s[i]) >= page
      ensures (key(s[i]) >= page) == (key(s[j]) >= page) ==> key(s[i]) <= key(s[j])
    {
      assert ComparePages(key(s[i]), key(s[j]), page) <= 0;
    }
  }

  /** Any stretch of a list with the promised shape has it too. */
  lemma WrapOrderedSlice<T>(s: seq<T>, key: T -> int, page: int, lo: nat, hi: nat)
    requires WrapOrdered(s, key, page) && lo <= hi <= |s|
    ensures WrapOrdered(s[lo..hi], key, page)
  {
    forall i, j | 0 <= i < j < hi - lo
      ensures key(s[lo..hi][j]) >= page ==> key(s[lo..hi][i]) >= page
      ensures (key(s[lo..hi][i]) >= page) == (key(s[lo..hi][j]) >= page) ==> key(s[lo..hi][i]) <= key(s[lo..hi][j])
    {
      assert s[lo..hi][i] == s[lo + i] && s[lo..hi][j] == s[lo + j];
    }
  }

  // ----- Lucene's top-N collector for a sort on this comparator -----

  /** The test the collector puts to a hit once its queue is full. */
  datatype BottomTest =
    /** the comparator's own `compareBottom(doc)` */
    | AsWritten
    /** `compare(bottom, doc)`, which Lucene's contract says `compareBottom` must agree with */
    | Consistent

  /** A hit with value `v` displaces a queue bottom with value `bottom` when the test comes out positive. */
  predicate Competitive(test: BottomTest, bottom: int, v: int, page: int) {
    match test
    case AsWritten => CompareBottomValue(bottom, v, page) > 0
    case Consistent => ComparePages(bottom, v, page) > 0
  }

  /**
   * `collect(doc)` for a hit `x` arriving at a queue `q`, kept in its final
   * order (`compare`, ties in the order found). While fewer than `numHits`
   * are queued the hit joins. After that it joins only when the bottom test
   * says it sorts before the bottom (the queued hit sorting last), and then
   * it pushes the bottom out.
   */
  function Offer<T>(q: seq<T>, x: T, key: T -> int, page: int, numHits: nat, test: BottomTest): (r: seq<T>)
    requires |q| <= numHits
    ensures |r| == Min(|q| + 1, numHits)
  {
    if |q| < numHits then InsertByPage(x, q, key, page)
    else if numHits > 0 && Competitive(test, key(q[numHits - 1]), key(x), page) then
      InsertByPage(x, q[..numHits - 1], key, page)
    else q
  }

  /**
   * The hits a sorted search keeps, in the order it returns them. Lucene's
   * collector (OneComparatorNonScoringCollector) offers it the matches in
   * index order.
   */
  function Collect<T>(s: seq<T>, key: T -> int, page: int, numHits: nat, test: BottomTest): (q: seq<T>)
    ensures |q| == Min(|s|, numHits)
  {
    if s == [] then []
    else
      var n := |s| - 1;
      Offer(Collect(s[..n], key, page, numHits, test), s[n], key, page, numHits, test)
  }

  /** An offered hit leaves a queue in `compare` order in that order. */
  lemma OfferKeepsSorted<T>(q: seq<T>, x: T, key: T -> int, page: int, numHits: nat, test: BottomTest)
    requires |q| <= numHits && SortedByPage(q, key, page)
    ensures SortedByPage(Offer(q, x, key, page, numHits, test), key, page)
  {
    if |q| < numHits {
      InsertKeepsSorted(x, q, key, page);
    } else if numHits > 0 && Competitive(test, key(q[numHits - 1]), key(x), page) {
      SortedPrefix(q, numHits - 1, key, page);
      InsertKeepsSorted(x, q[..numHits - 1], key, page);
    }
  }

  /** Whatever the bottom test, the collected hits are in `compare` order. */
  lemma {:induction false} CollectSorted<T>(s: seq<T>, key: T -> int, page: int, numHits: nat, test: BottomTest)
    ensures SortedByPage(Collect(s, key, page, numHits, test), key, page)
  {
    if s != [] {
      var n := |s| - 1;
      CollectSorted(s[..n], key, page, numHits, test);
      OfferKeepsSorted(Collect(s[..n], key, page, numHits, test), s[n], key, page, numHits, test);
    }
  }

  /** An offered hit joins the queue or is turned away; nothing else comes in. */
  lemma OfferAddsOnlyTheHit<T>(q: seq<T>, x: T, key: T -> int, page: int, numHits: nat, test: BottomTest)
    requires |q| <= numHits
    ensures multiset(Offer(q, x, key, page, numHits, test)) <= multiset(q) + multiset{x}
  {
    if |q| >= numHits && numHits > 0 && Competitive(test, key(q[numHits - 1]), key(x), page) {
      assert multiset(q[..numHits - 1]) <= multiset(q) by {
        assert q == q[..numHits - 1] + [q[numHits - 1]];
      }
    }
  }

  /** The collected hits are matches, each kept at most as often as it was found. */
  lemma {:induction false} CollectDrawsFromMatches<T>(s: seq<T>, key: T -> int, page: int, numHits: nat, test: BottomTest)
    ensures multiset(Collect(s, key, page, numHits, test)) <= multiset(s)
  {
    if s != [] {
      var n := |s| - 1;
      var q := Collect(s[..n], key, page, numHits, test);
      CollectDrawsFromMatches(s[..n], key, page, numHits, test);
      OfferAddsOnlyTheHit(q, s[n], key, page, numHits, test);
      assert multiset(s) == multiset(s[..n]) + multiset{s[n]} by {
        assert s == s[..n] + [s[n]];
      }
    }
  }

  /**
   * Cutting a list in `compare` order to its first `n` after inserting `x`
   * that sorts strictly before the `n`-th element: `x` lands among the
   * first `n - 1`.
   */
  lemma {:induction false} InsertThenCutBefore<T>(x: T, s: seq<T>, n: nat, key: T -> int, page: int)
    requires SortedByPage(s, key, page) && 0 < n <= |s|
    requires ComparePages(key(s[n - 1]), key(x), page) > 0
    ensures InsertByPage(x, s, key, page)[..n] == InsertByPage(x, s[..n - 1], key, page)
  {
    if ComparePages(key(x), key(s[0]), page) < 0 {
      assert InsertByPage(x, s, key, page)[..n] == [x] + s[..n - 1] by {
        assert InsertByPage(x, s, key, page) == [x] + s;
      }
      if n > 1 {
        assert InsertByPage(x, s[..n - 1], key, page) == [x] + s[..n - 1] by {
          assert s[..n - 1][0] == s[0];
        }
      }
    } else {
      assert n > 1 by {
        CompareAntisymmetric(key(x), key(s[0]), page);
      }
      var rest := s[1..];
      assert rest[n - 2] == s[n - 1];
      assert InsertByPage(x, rest, key, page)[..n - 1] == InsertByPage(x, rest[..n - 2], key, page) by {
        SortedTail(s, key, page);
        InsertThenCutBefore(x, rest, n - 1, key, page);
      }
      assert InsertByPage(x, s, key, page) == [s[0]] + InsertByPage(x, rest, key, page);
      assert InsertByPage(x, s[..n - 1], key, page) == [s[0]] + InsertByPage(x, rest[..n - 2], key, page) by {
        assert s[..n - 1][0] == s[0] && s[..n - 1][1..] == rest[..n - 2];
      }
    }
  }

  /**
   * Cutting a list in `compare` order to its first `n` after inserting `x`
   * that does not sort before the `n`-th element: the first `n` stay as
   * they were.
   */
  lemma {:induction false} InsertThenCutAfter<T>(x: T, s: seq<T>, n: nat, key: T -> int, page: int)
    requires SortedByPage(s, key, page) && 0 < n <= |s|
    requires ComparePages(key(s[n - 1]), key(x), page) <= 0
    ensures InsertByPage(x, s, key, page)[..n] == s[..n]
  {
    assert ComparePages(key(x), key(s[0]), page) >= 0 by {
      CompareAntisymmetric(key(x), key(s[n - 1]), page);
      CompareTransitive(key(x), key(s[0]), key(s[n - 1]), page);
    }
    var rest := s[1..];
    var ins := InsertByPage(x, rest, key, page);
    assert InsertByPage(x, s, key, page) == [s[0]] + ins;
    if n > 1 {
      assert ins[..n - 1] == rest[..n - 1] by {
        assert rest[n - 2] == s[n - 1];
        SortedTail(s, key, page);
        InsertThenCutAfter(x, rest, n - 1, key, page);
      }
      assert ([s[0]] + ins)[..n] == [s[0]] + ins[..n - 1];
      assert s[..n] == [s[0]] + rest[..n - 1];
    }
  }

  /** Offering a hit to the first `numHits` of a sorted list gives the first `numHits` once it is inserted. */
  lemma OfferCutsInsert<T>(sorted: seq<T>, x: T, key: T -> int, page: int, numHits: nat)
    requires SortedByPage(sorted, key, page) && numHits <= |sorted|
    ensures Offer(sorted[..numHits], x, key, page, numHits, Consistent) == InsertByPage(x, sorted, key, page)[..numHits]
  {
    var q := sorted[..numHits];
    if numHits > 0 {
      assert q[numHits - 1] == sorted[numHits - 1];
      if ComparePages(key(sorted[numHits - 1]), key(x), page) > 0 {
        InsertThenCutBefore(x, sorted, numHits, key, page);
        assert q[..numHits - 1] == sorted[..numHits - 1];
      } else {
        InsertThenCutAfter(x, sorted, numHits, key, page);
      }
    }
  }

  /**
   * With the bottom test Lucene's contract asks for, the collector keeps
   * exactly the first `numHits` hits of the full `compare`-order sort.
   */
  lemma {:induction false} CollectConsistent<T>(s: seq<T>, key: T -> int, page: int, numHits: nat)
    ensures Collect(s, key, page, numHits, Consistent) == SortByPage(s, key, page)[..Min(|s|, numHits)]
  {
    if s != [] {
      var n := |s| - 1;
      var sorted := SortByPage(s[..n], key, page);
      CollectConsistent(s[..n], key, page, numHits);
      assert SortByPage(s, key, page) == InsertByPage(s[n], sorted, key, page);
      if n >= numHits {
        assert Collect(s[..n], key, page, numHits, Consistent) == sorted[..numHits];
        SortByPageSorted(s[..n], key, page);
        OfferCutsInsert(sorted, s[n], key, page, numHits);
        assert Collect(s, key, page, numHits, Consistent) == Offer(sorted[..numHits], s[n], key, page, numHits, Consistent);
      } else {
        assert Collect(s[..n], key, page, numHits, Consistent) == sorted;
      }
    }
  }

  /** With a queue bottom at or after the start page, the two bottom tests treat an offered hit alike. */
  lemma OfferFromStartPage<T>(q: seq<T>, x: T, key: T -> int, page: int, numHits: nat)
    requires |q| <= numHits
    requires |q| == numHits > 0 ==> key(q[numHits - 1]) >= page
    ensures Offer(q, x, key, page, numHits, AsWritten) == Offer(q, x, key, page, numHits, Consistent)
  {
    if |q| == numHits > 0 {
      CompareBottomAgreement(key(q[numHits - 1]), key(x), page);
    }
  }

  /**
   * When no match lies before the start page the comparator's own
   * `compareBottom` decides as `compare` would, so the collector keeps
   * exactly what it would with the consistent test.
   */
  lemma {:induction false} CollectFromStartPage<T>(s: seq<T>, key: T -> int, page: int, numHits: nat)
    requires forall k :: 0 <= k < |s| ==> key(s[k]) >= page
    ensures Collect(s, key, page, numHits, AsWritten) == Collect(s, key, page, numHits, Consistent)
  {
    if s != [] {
      var n := |s| - 1;
      var init := s[..n];
      var q := Collect(init, key, page, numHits, AsWritten);
      assert q == Collect(init, key, page, numHits, Consistent) by {
        assert forall k :: 0 <= k < |init| ==> key(init[k]) >= page by {
          assert forall k :: 0 <= k < |init| ==> init[k] == s[k];
        }
        CollectFromStartPage(init, key, page, numHits);
      }
      assert |q| == numHits > 0 ==> key(q[numHits - 1]) >= page by {
        if |q| == numHits > 0 {
          assert q[numHits - 1] in multiset(init) by {
            assert q[numHits - 1] in multiset(q);
            CollectDrawsFromMatches(init, key, page, numHits, AsWritten);
          }
          var i :| 0 <= i < |init| && init[i] == q[numHits - 1];
          assert init[i] == s[i];
        }
      }
      OfferFromStartPage(q, s[n], key, page, numHits);
    }
  }

  /**
   * The comparator object Lucene drives during a sorted search: `copy` fills
   * a slot with a document's page, `setBottom` / `setTopValue` record the
   * values the queue compares against, and the three comparison methods
   * read them. Each document's page arrives already read from the field
   * cache (`docValue`).
   */
  class PagedIntComparator {
    const page: int
    const values: array<int>
    var bottom: int
    var topValue: int

    constructor (numHits: nat, page: int)
      ensures this.page == page && values.Length == numHits && fresh(values)
      ensures forall i :: 0 <= i < numHits ==> values[i] == 0
      ensures bottom == 0 && topValue == 0
    {
      this.page := page;
      values := new int[numHits](_ => 0);
      bottom, topValue := 0, 0;
    }

    /** `copy(slot, doc)`: stores the document's page in `slot`, leaving the other slots alone. */
    method Copy(slot: nat, docValue: int)
      requires slot < values.Length
      modifies values
      ensures values[slot] == docValue
      ensures forall i :: 0 <= i < values.Length && i != slot ==> values[i] == old(values[i])
    {
      values[slot] := docValue;
    }

    /** `setBottom(slot)`: the bottom of the queue is now the value held in `slot`. */
    method SetBottom(slot: nat)
      requires slot < values.Length
      modifies this`bottom
      ensures bottom == values[slot]
    {
      bottom := values[slot];
    }

    /** `setTopValue(value)` */
    method SetTopValue(value: int)
      modifies this`topValue
      ensures topValue == value
    {
      topValue := value;
    }

    /** `value(slot)` */
    method Value(slot: nat) returns (v: int)
      requires slot < values.Length
      ensures v == values[slot]
    {
      v := values[slot];
    }

    /** `compare(slot1, slot2)` */
    method Compare(slot1: nat, slot2: nat) returns (r: int)
      requires slot1 < values.Length && slot2 < values.Length
      ensures r == ComparePages(values[slot1], values[slot2], page)
    {
      var v1 := values[slot1];
      var v2 := values[slot2];
      if v1 < page && v2 >= page {
        r := 1;
      } else if v1 >= page && v2 < page {
        r := -1;
      } else if v1 > v2 {
        r := 1;
      } else if v1 < v2 {
        r := -1;
      } else {
        r := 0;
      }
    }

    /** `compareBottom(doc)` */
    method CompareBottom(docValue: int) returns (r: int)
      ensures r == CompareBottomValue(bottom, docValue, page)
    {
      if docValue < page {
        return -1;
      }
      if bottom > docValue {
        r := 1;
      } else if bottom < docValue {
        r := -1;
      } else {
        r := 0;
      }
    }

    /** `compareTop(doc)` */
    method CompareTop(docValue: int) returns (r: int)
      ensures r == CompareTopValue(topValue, docValue, page)
    {
      if topValue < page && docValue > page {
        return 1;
      }
      if topValue < docValue {
        r := -1;
      } else if topValue > docValue {
        r := 1;
      } else {
        r := 0;
      }
    }
  }
}
