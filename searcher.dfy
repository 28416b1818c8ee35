/**
 * FileSearcher: paged searches over the index, the per-page result
 * assembly, and the cooperative `interrupt` flag.
 *
 * The searcher runs on one thread while another may call `interrupt()` at
 * any time. A search checks the flag at fixed checkpoints, numbered from 0
 * in the order the call reaches them. The other thread is represented by
 * `interruptAt`: its `interrupt()` lands just before checkpoint number
 * `interruptAt` of the call (a number past the call's last checkpoint means
 * it does not land during the call).
 */
module Searcher {
  import opened Common
  import opened Query
  import PageOrder

  /** What a Java search method gives its caller: a value, null, or an escaping exception. */
  datatype Reply<T> = Value(value: T) | Null | Throws

  /**
   * What one search call does when no interrupt lands during it: its reply,
   * and how many interrupt checkpoints it passes on the way.
   */
  datatype Run<T> = Run(reply: Reply<T>, checkpoints: nat)

  // ----- paging windows -----

  /** The hit limit every search asks Lucene for: all pages up to and including `pageSet`. */
  function SearchLimit(maxResults: nat, pageSet: nat): nat {
    maxResults * pageSet + maxResults
  }

  /**
   * The hits `findName` and `findIn` keep: positions `maxResults*pageSet` up to
   * (not including) `maxResults*pageSet + maxResults`, as far as `hits` reaches.
   */
  function Window<T>(hits: seq<T>, maxResults: nat, pageSet: nat): (w: seq<T>)
    ensures |w| <= maxResults
    ensures |w| == if maxResults * pageSet < |hits| then Min(|hits|, SearchLimit(maxResults, pageSet)) - maxResults * pageSet else 0
    ensures forall j :: 0 <= j < |w| ==> w[j] == hits[maxResults * pageSet + j]
  {
    Slice(hits, maxResults * pageSet, maxResults)
  }

  /** At most `k` hits from position `lo` on. */
  function Slice<T>(hits: seq<T>, lo: nat, k: nat): seq<T> {
    if lo < |hits| then hits[lo..Min(|hits|, lo + k)] else []
  }

  /** Windows of different sets visit disjoint positions. */
  lemma WindowsDisjoint(maxResults: nat, pageSet1: nat, pageSet2: nat, i: nat)
    requires pageSet1 < pageSet2
    requires maxResults * pageSet1 <= i < SearchLimit(maxResults, pageSet1)
    ensures !(maxResults * pageSet2 <= i < SearchLimit(maxResults, pageSet2))
  {
    assert maxResults * pageSet2 >= maxResults * (pageSet1 + 1) by {
      MulMonotone(maxResults, pageSet1 + 1, pageSet2);
    }
  }

  lemma MulMonotone(k: nat, a: nat, b: nat)
    requires a <= b
    ensures k * a <= k * b
  {
  }

  /**
   * Lucene returns the first `SearchLimit` hits only; the window of `pageSet`
   * lies inside them, so asking for that limit loses nothing.
   */
  lemma WindowOfLimitedHits<T>(all: seq<T>, maxResults: nat, pageSet: nat)
    ensures Window(Take(all, SearchLimit(maxResults, pageSet)), maxResults, pageSet) == Window(all, maxResults, pageSet)
  {
  }

  /** The windows of sets `0 .. n-1`, one after another. */
  function Pages<T>(hits: seq<T>, maxResults: nat, n: nat): seq<T> {
    if n == 0 then [] else Pages(hits, maxResults, n - 1) + Window(hits, maxResults, n - 1)
  }

  /**
   * Paging completeness: stepping `pageSet` from 0 to `n-1` lists the first
   * `maxResults * n` hits once each, in order.
   */
  lemma {:induction false} PagesCoverHits<T>(hits: seq<T>, maxResults: nat, n: nat)
    ensures Pages(hits, maxResults, n) == hits[..Min(|hits|, maxResults * n)]
  {
    if n > 0 {
      PagesCoverHits(hits, maxResults, n - 1);
      MulSucc(maxResults, n);
      PrefixThenSlice(hits, maxResults * (n - 1), maxResults);
    }
  }

  lemma MulSucc(k: nat, n: nat)
    requires n > 0
    ensures k * n == k * (n - 1) + k
  {
  }

  /** The hits before `lo`, then those from `lo` up to `lo + k`, are the hits before `lo + k`. */
  lemma PrefixThenSlice<T>(hits: seq<T>, lo: nat, k: nat)
    ensures hits[..Min(|hits|, lo)] + Slice(hits, lo, k) == hits[..Min(|hits|, lo + k)]
  {
    if lo < |hits| {
      assert hits[..Min(|hits|, lo + k)] == hits[..lo] + hits[lo..Min(|hits|, lo + k)];
    }
  }

  /**
   * The loop of `find` joins its bounds with `||`: it walks from `lo` on while
   * either bound still holds, and fails once it reads past the end of `hits`.
   */
  function FindWindowAsWritten<T>(hits: seq<T>, lo: nat, hi: nat): (r: Reply<seq<T>>)
    requires lo < hi
    ensures r.Throws? <==> |hits| < hi
    ensures r.Value? ==> r.value == hits[lo..]
  {
    if |hits| < hi then Throws else Value(hits[lo..])
  }

  /**
   * With the hit list Lucene returns for the limit, `find` fails unless the
   * index has at least `maxResults * pageSet + maxResults` matches, while the
   * window of `findIn` is always in bounds and equal to the hits it reads
   * when nothing fails.
   */
  lemma FindWindowFailsShortOfLimit<T>(all: seq<T>, maxResults: nat, pageSet: nat)
    requires maxResults > 0
    ensures var hits := Take(all, SearchLimit(maxResults, pageSet));
      && (FindWindowAsWritten(hits, maxResults * pageSet, SearchLimit(maxResults, pageSet)).Throws?
          <==> |all| < SearchLimit(maxResults, pageSet))
      && (FindWindowAsWritten(hits, maxResults * pageSet, SearchLimit(maxResults, pageSet)).Value? ==>
          FindWindowAsWritten(hits, maxResults * pageSet, SearchLimit(maxResults, pageSet)).value == Window(all, maxResults, pageSet))
  {
  }

  /** Three matches and ten results per page: the first page already fails in `find`. */
  lemma FindFirstPageFails(all: seq<int>)
    requires |all| == 3
    ensures FindWindowAsWritten(Take(all, SearchLimit(10, 0)), 0, 10) == Throws
    ensures Window(all, 10, 0) == all
  {
  }

  // ----- reading the stored documents -----

  /**
   * The documents of `hits` whose stored fields `doc(id)` reads, in order:
   * the window loops log an IOException from `doc` and go on with the next
   * hit, so a document that cannot be read is left out.
   */
  function Readable(hits: seq<Doc>, readFails: Doc -> bool): (r: seq<Doc>)
    ensures |r| <= |hits|
  {
    if hits == [] then []
    else
      var n := |hits| - 1;
      Readable(hits[..n], readFails) + (if readFails(hits[n]) then [] else [hits[n]])
  }

  /** One more hit: the documents read so far, then the hit when it can be read. */
  lemma ReadableSnoc(s: seq<Doc>, x: Doc, readFails: Doc -> bool)
    ensures Readable(s + [x], readFails) == Readable(s, readFails) + (if readFails(x) then [] else [x])
  {
    assert (s + [x])[..|s|] == s;
  }

  /** One more hit of a slice, read or skipped. */
  lemma ReadableExtend(hits: seq<Doc>, lo: nat, i: nat, readFails: Doc -> bool)
    requires lo <= i < |hits|
    ensures Readable(hits[lo..i + 1], readFails) == Readable(hits[lo..i], readFails) + (if readFails(hits[i]) then [] else [hits[i]])
  {
    assert hits[lo..i + 1] == hits[lo..i] + [hits[i]];
    ReadableSnoc(hits[lo..i], hits[i], readFails);
  }

  /** The documents kept are exactly the hits that can be read. */
  lemma {:induction false} ReadableMembers(hits: seq<Doc>, readFails: Doc -> bool)
    ensures forall d :: d in Readable(hits, readFails) <==> d in hits && !readFails(d)
  {
    if hits != [] {
      var n := |hits| - 1;
      ReadableMembers(hits[..n], readFails);
      assert hits == hits[..n] + [hits[n]];
    }
  }

  /** Every document of `hits` can be read. */
  predicate AllReadable(hits: seq<Doc>, readFails: Doc -> bool) {
    forall k :: 0 <= k < |hits| ==> !readFails(hits[k])
  }

  /** When every document can be read, the loops keep every hit. */
  lemma {:induction false} ReadableAllRead(hits: seq<Doc>, readFails: Doc -> bool)
    requires AllReadable(hits, readFails)
    ensures Readable(hits, readFails) == hits
  {
    if hits != [] {
      var n := |hits| - 1;
      var front := hits[..n];
      assert forall k :: 0 <= k < |front| ==> front[k] == hits[k];
      ReadableAllRead(front, readFails);
      calc {
        Readable(hits, readFails);
        Readable(front, readFails) + [hits[n]];
        front + [hits[n]];
        { assert hits == front + [hits[n]]; }
        hits;
      }
    }
  }

  /** Leaving out unreadable documents keeps the page-wrapping order of the rest. */
  lemma {:induction false} ReadableWrapOrdered(hits: seq<Doc>, readFails: Doc -> bool, page: int)
    requires PageOrder.WrapOrdered(hits, PageOf, page)
    ensures PageOrder.WrapOrdered(Readable(hits, readFails), PageOf, page)
  {
    if hits != [] {
      var n := |hits| - 1;
      PageOrder.WrapOrderedSlice(hits, PageOf, page, 0, n);
      ReadableWrapOrdered(hits[..n], readFails, page);
      ReadableMembers(hits[..n], readFails);
      var front := Readable(hits[..n], readFails);
      if !readFails(hits[n]) {
        var r := front + [hits[n]];
        forall i, j | 0 <= i < j < |r|
          ensures PageOf(r[j]) >= page ==> PageOf(r[i]) >= page
          ensures (PageOf(r[i]) >= page) == (PageOf(r[j]) >= page) ==> PageOf(r[i]) <= PageOf(r[j])
        {
          if j == |front| {
            assert r[i] in hits[..n] by { assert r[i] == front[i]; }
            var k :| 0 <= k < n && hits[k] == r[i];
            assert r[j] == hits[n];
          } else {
            assert r[i] == front[i] && r[j] == front[j];
          }
        }
      }
    }
  }

  // ----- result assembly -----

  /**
   * What stays fixed through one assembly loop of `findIn` or `find`: the
   * query type, the search term, the query, the highlighter, and the number
   * of snippets the caller asked for.
   */
  datatype Highlight = Highlight(qtype: int, term: string, q: Query,
                                 fragments: (Query, string, int) -> Option<seq<string>>, maxResults: nat)

  /** Results assembled by one loop: the items, how many iterations began, and whether one failed. */
  datatype Assembled<T> = Assembled(items: seq<T>, steps: nat, failed: bool)

  /**
   * The snippets of one document in `findIn` and `find`: the search term
   * itself for BOOLEAN, otherwise the best fragments within `budget`.
   * None when the call breaks down there: the highlighter threw (its null
   * result is then dereferenced by the log line after it), or it found no
   * fragment (the log line then reads `frag[0]`); the surrounding
   * `catch (Exception e)` turns either into a null reply.
   */
  function Snippets(h: Highlight, d: Doc, budget: int): Option<seq<string>> {
    if h.qtype == QUERY_BOOLEAN then Some([h.term])
    else match h.fragments(h.q, d.text, budget)
      case None => None
      case Some(best) => if best == [] then None else Some(best)
  }

  /** How many fragments a document's snippets add to `numResults`. */
  function Counted(qtype: int, snippets: seq<string>): nat {
    if qtype == QUERY_BOOLEAN then 0 else |snippets|
  }

  /** `n` slots the loop never reached. */
  function Unset(n: nat): (r: seq<Option<PageResult>>)
    ensures |r| == n
  {
    if n == 0 then [] else Unset(n - 1) + [None]
  }

  lemma {:induction false} UnsetNone(n: nat)
    ensures forall j :: 0 <= j < n ==> Unset(n)[j] == None
  {
    if n > 0 {
      UnsetNone(n - 1);
    }
  }

  /**
   * The assembly loop of `findIn` from iteration `i` on, with `used`
   * fragments counted so far and `acc` holding slots `0 .. i-1`: it stops at
   * the end of `docs` or once `used` reaches the number asked for, leaving
   * the later slots unset.
   */
  function FillIn(docs: seq<Doc>, i: nat, used: int, h: Highlight, acc: seq<Option<PageResult>>)
    : (a: Assembled<Option<PageResult>>)
    requires i <= |docs| && |acc| == i
    ensures |a.items| == |docs| && i <= a.steps <= |docs|
    decreases |docs| - i
  {
    if i == |docs| || used >= h.maxResults then Assembled(acc + Unset(|docs| - i), i, false)
    else match Snippets(h, docs[i], h.maxResults - used)
      case None => Assembled(acc + Unset(|docs| - i), i + 1, true)
      case Some(sn) =>
        FillIn(docs, i + 1, used + Counted(h.qtype, sn), h, acc + [Some(PageResult(sn, docs[i].page, docs[i].path))])
  }

  /** The assembly loop of `find` from iteration `i` on: every document, with no stop on the budget. */
  function FillAll(docs: seq<Doc>, i: nat, used: int, h: Highlight, source: string, acc: seq<PageResult>)
    : (a: Assembled<PageResult>)
    requires i <= |docs| && |acc| == i
    ensures i <= a.steps <= |docs|
    ensures !a.failed ==> |a.items| == |docs| && a.steps == |docs|
    decreases |docs| - i
  {
    if i == |docs| then Assembled(acc, i, false)
    else match Snippets(h, docs[i], h.maxResults - used)
      case None => Assembled(acc, i + 1, true)
      case Some(sn) =>
        FillAll(docs, i + 1, used + Counted(h.qtype, sn), h, source, acc + [PageResult(sn, docs[i].page, source)])
  }

  /** One iteration of the `findIn` loop that fills slot `i`. */
  lemma FillInStep(docs: seq<Doc>, i: nat, used: int, h: Highlight, acc: seq<Option<PageResult>>, sn: seq<string>)
    requires i < |docs| && |acc| == i && used < h.maxResults
    requires Snippets(h, docs[i], h.maxResults - used) == Some(sn)
    ensures FillIn(docs, i, used, h, acc) ==
      FillIn(docs, i + 1, used + Counted(h.qtype, sn), h, acc + [Some(PageResult(sn, docs[i].page, docs[i].path))])
  {
  }

  /** An iteration of the `findIn` loop that breaks down ends the assembly as failed. */
  lemma FillInFail(docs: seq<Doc>, i: nat, used: int, h: Highlight, acc: seq<Option<PageResult>>)
    requires i < |docs| && |acc| == i && used < h.maxResults
    requires Snippets(h, docs[i], h.maxResults - used).None?
    ensures FillIn(docs, i, used, h, acc) == Assembled(acc + Unset(|docs| - i), i + 1, true)
  {
  }

  /** The `findIn` loop ends at the last document or once the budget is spent. */
  lemma FillInStop(docs: seq<Doc>, i: nat, used: int, h: Highlight, acc: seq<Option<PageResult>>)
    requires i <= |docs| && |acc| == i && (i == |docs| || used >= h.maxResults)
    ensures FillIn(docs, i, used, h, acc) == Assembled(acc + Unset(|docs| - i), i, false)
  {
  }

  /** One iteration of the `find` loop that appends a result. */
  lemma FillAllStep(docs: seq<Doc>, i: nat, used: int, h: Highlight, source: string, acc: seq<PageResult>, sn: seq<string>)
    requires i < |docs| && |acc| == i
    requires Snippets(h, docs[i], h.maxResults - used) == Some(sn)
    ensures FillAll(docs, i, used, h, source, acc) ==
      FillAll(docs, i + 1, used + Counted(h.qtype, sn), h, source, acc + [PageResult(sn, docs[i].page, source)])
  {
  }


  function Paths(docs: seq<Doc>): (r: seq<string>)
    ensures |r| == |docs| && forall j :: 0 <= j < |docs| ==> r[j] == docs[j].path
  {
    seq(|docs|, j requires 0 <= j < |docs| => docs[j].path)
  }

  function PageOf(d: Doc): int { d.page }

  // ----- what each search does when no interrupt lands -----

  /**
   * `findName`: checkpoints 0 and 1 around building the query; a type it
   * does not recognise (or a query that does not parse) gives an empty
   * list; a zero limit (Lucene refuses it) or a searcher that never opened
   * throws; otherwise checkpoints 2 and 3 around reading the window, whose
   * readable documents' paths are the reply. A search that fails with an
   * IOException is logged and leaves the hit list null, so the window loop
   * throws after checkpoint 2.
   */
  function NameRun(engine: Engine, open: bool, term: string, field: string, constrainValues: seq<string>,
                   constrainField: string, maxResults: nat, pageSet: nat, qtype: int): Run<seq<string>>
  {
    match BuildQuery(qtype, term, field, engine.parses)
    case None => Run(Value([]), 2)
    case Some(q) =>
      if maxResults == 0 || !open then Run(Throws, 2)
      else if engine.searchFails(q, FilterOf(constrainField, constrainValues)) then Run(Throws, 3)
      else
        var hits := Take(engine.matches(q, FilterOf(constrainField, constrainValues)), SearchLimit(maxResults, pageSet));
        Run(Value(Paths(Readable(Window(hits, maxResults, pageSet), engine.readFails))), 4)
  }

  /** The filter `BuildFilter` produces, as a value. */
  function FilterOf(constrainField: string, constrainValues: seq<string>): (f: Query)
    ensures f.MustAll? && |f.clauses| == |constrainValues|
    ensures forall i :: 0 <= i < |constrainValues| ==>
      f.clauses[i] == TermQuery(Term(constrainField, constrainValues[i]))
  {
    MustAll(seq(|constrainValues|, i requires 0 <= i < |constrainValues| => TermQuery(Term(constrainField, constrainValues[i]))))
  }

  /**
   * `findIn`: as `findName` up to checkpoint 3, then one checkpoint at the
   * start of every assembly iteration and one after the loop.
   */
  function InRun(engine: Engine, open: bool, term: string, field: string, constrainValues: seq<string>,
                 constrainField: string, maxResults: nat, pageSet: nat, qtype: int): Run<seq<Option<PageResult>>>
  {
    match BuildQuery(qtype, term, field, engine.parses)
    case None => Run(Value([]), 2)
    case Some(q) =>
      if maxResults == 0 || !open then Run(Throws, 2)
      else if engine.searchFails(q, FilterOf(constrainField, constrainValues)) then Run(Throws, 3)
      else
        var hits := Take(engine.matches(q, FilterOf(constrainField, constrainValues)), SearchLimit(maxResults, pageSet));
        var a := FillIn(Readable(Window(hits, maxResults, pageSet), engine.readFails), 0, 0, Highlight(qtype, term, q, engine.fragments, maxResults), []);
        if a.failed then Run(Null, 4 + a.steps) else Run(Value(a.items), 5 + a.steps)
  }

  /**
   * `find`: one constraint value, the hits Lucene's collector keeps with
   * the page-wrapping comparator, the `||` window loop between checkpoints
   * 2 and 3, then one
   * checkpoint per assembly iteration and one after the loop.
   */
  function PagedRun(engine: Engine, open: bool, term: string, field: string, constrainValue: string,
                    constrainField: string, maxResults: nat, pageSet: nat, qtype: int, page: int): Run<seq<PageResult>>
  {
    match BuildQuery(qtype, term, field, engine.parses)
    case None => Run(Value([]), 2)
    case Some(q) => PagedSearch(engine, open, q, term, constrainValue, constrainField, maxResults, pageSet, qtype, page)
  }

  /** The part of `PagedRun` from the moment the query is built. */
  function PagedSearch(engine: Engine, open: bool, q: Query, term: string, constrainValue: string,
                       constrainField: string, maxResults: nat, pageSet: nat, qtype: int, page: int): Run<seq<PageResult>>
  {
    if maxResults == 0 || !open then Run(Throws, 2)
    else if engine.searchFails(q, FilterOf(constrainField, [constrainValue])) then Run(Throws, 3)
    else
      WindowRun(SortedHits(engine, q, constrainField, constrainValue, maxResults, pageSet, page),
                maxResults * pageSet, SearchLimit(maxResults, pageSet),
                Highlight(qtype, term, q, engine.fragments, maxResults), constrainValue, engine.readFails)
  }

  /**
   * The part of `PagedRun` after checkpoint 2: the `||` window loop over
   * the kept hits, which skips the documents it cannot read, checkpoint 3,
   * then the assembly.
   */
  function WindowRun(hits: seq<Doc>, lo: nat, limit: nat, h: Highlight, source: string,
                     readFails: Doc -> bool): Run<seq<PageResult>>
    requires lo < limit
  {
    match FindWindowAsWritten(hits, lo, limit)
    case Value(docs) =>
      var a := FillAll(Readable(docs, readFails), 0, 0, h, source, []);
      if a.failed then Run(Null, 4 + a.steps) else Run(Value(a.items), 5 + a.steps)
    case _ => Run(Throws, 3)
  }

  /**
   * The hits of `find`: what Lucene's collector keeps of the matches with
   * a queue of `SearchLimit` slots, admitting hits through the
   * comparator's own `compareBottom`, in page-wrapping order.
   */
  function SortedHits(engine: Engine, q: Query, constrainField: string, constrainValue: string,
                      maxResults: nat, pageSet: nat, page: int): seq<Doc>
  {
    PageOrder.Collect(engine.matches(q, FilterOf(constrainField, [constrainValue])), PageOf, page,
                      SearchLimit(maxResults, pageSet), PageOrder.AsWritten)
  }

  // ----- properties of the runs -----

  /**
   * `findName` returns the paths of exactly the readable hits in the
   * window of `pageSet` over all matches, so at most `maxResults` of them;
   * an unrecognised type, or a STANDARD text the parser refuses, gives an
   * empty list rather than null, and a failing search throws.
   */
  lemma NameRunReply(engine: Engine, open: bool, term: string, field: string, constrainValues: seq<string>,
                     constrainField: string, maxResults: nat, pageSet: nat, qtype: int)
    ensures var run := NameRun(engine, open, term, field, constrainValues, constrainField, maxResults, pageSet, qtype);
      && (qtype != QUERY_BOOLEAN && qtype != QUERY_STANDARD ==> run.reply == Value([]))
      && (qtype == QUERY_STANDARD && !engine.parses(field, term) ==> run.reply == Value([]))
      && (qtype == QUERY_STANDARD && engine.parses(field, term) && maxResults > 0 && open ==>
          var filter := FilterOf(constrainField, constrainValues);
          var all := engine.matches(Parsed(field, term), filter);
          run.reply == if engine.searchFails(Parsed(field, term), filter) then Throws
                       else Value(Paths(Readable(Window(all, maxResults, pageSet), engine.readFails))))
      && (qtype == QUERY_BOOLEAN && maxResults > 0 && open ==>
          var q := MustAll([WildcardQuery(Term(field, WildcardPattern(term)))]);
          var filter := FilterOf(constrainField, constrainValues);
          var all := engine.matches(q, filter);
          run.reply == if engine.searchFails(q, filter) then Throws
                       else Value(Paths(Readable(Window(all, maxResults, pageSet), engine.readFails))))
      && (run.reply.Value? ==> |run.reply.value| <= maxResults)
  {
    match BuildQuery(qtype, term, field, engine.parses)
    case None =>
    case Some(q) =>
      if maxResults > 0 && open {
        WindowOfLimitedHits(engine.matches(q, FilterOf(constrainField, constrainValues)), maxResults, pageSet);
      }
  }

  /** How many snippets one result slot holds. */
  function SlotSnippets(slot: Option<PageResult>): nat {
    if slot.Some? then |slot.value.snippets| else 0
  }

  /** How many snippets a list of result slots holds in all. */
  function SnippetCount(slots: seq<Option<PageResult>>): nat {
    if slots == [] then 0 else SnippetCount(slots[..|slots| - 1]) + SlotSnippets(slots[|slots| - 1])
  }

  lemma {:induction false} UnsetCount(acc: seq<Option<PageResult>>, n: nat)
    ensures SnippetCount(acc + Unset(n)) == SnippetCount(acc)
  {
    if n == 0 {
      assert acc + Unset(n) == acc;
    } else {
      UnsetCount(acc, n - 1);
      assert acc + Unset(n) == (acc + Unset(n - 1)) + [None];
    }
  }

  /**
   * The budget of the `findIn` assembly loop: when the slots so far hold
   * the `used` snippets counted, the finished slots hold at most the number
   * asked for, as long as the highlighter keeps to the count it is given.
   */
  lemma {:induction false} FillInBudget(docs: seq<Doc>, i: nat, used: int, h: Highlight, acc: seq<Option<PageResult>>)
    requires i <= |docs| && |acc| == i
    requires h.qtype != QUERY_BOOLEAN && KeepsFragmentCount(h.fragments)
    requires SnippetCount(acc) == used <= h.maxResults
    ensures SnippetCount(FillIn(docs, i, used, h, acc).items) <= h.maxResults
    decreases |docs| - i
  {
    if i == |docs| || used >= h.maxResults {
      FillInStop(docs, i, used, h, acc);
      UnsetCount(acc, |docs| - i);
    } else {
      match Snippets(h, docs[i], h.maxResults - used)
      case None =>
        FillInFail(docs, i, used, h, acc);
        UnsetCount(acc, |docs| - i);
      case Some(sn) =>
        var acc' := acc + [Some(PageResult(sn, docs[i].page, docs[i].path))];
        assert acc'[..i] == acc;
        FillInStep(docs, i, used, h, acc, sn);
        FillInBudget(docs, i + 1, used + |sn|, h, acc');
    }
  }

  /** Every filled slot among `slots` holds the page and path of the document in its position. */
  predicate FromDocs(slots: seq<Option<PageResult>>, docs: seq<Doc>) {
    |slots| <= |docs| &&
    forall j :: 0 <= j < |slots| && slots[j].Some? ==>
      slots[j].value.page == docs[j].page && slots[j].value.source == docs[j].path
  }

  /** The `findIn` loop fills each slot from the document in its position. */
  lemma {:induction false} FillInSlots(docs: seq<Doc>, i: nat, used: int, h: Highlight, acc: seq<Option<PageResult>>)
    requires i <= |docs| && |acc| == i && FromDocs(acc, docs)
    ensures FromDocs(FillIn(docs, i, used, h, acc).items, docs)
    decreases |docs| - i
  {
    if i == |docs| || used >= h.maxResults {
      FillInStop(docs, i, used, h, acc);
      UnsetNone(|docs| - i);
    } else {
      match Snippets(h, docs[i], h.maxResults - used)
      case None =>
        FillInFail(docs, i, used, h, acc);
        UnsetNone(|docs| - i);
      case Some(sn) =>
        FillInStep(docs, i, used, h, acc, sn);
        FillInSlots(docs, i + 1, used + Counted(h.qtype, sn), h, acc + [Some(PageResult(sn, docs[i].page, docs[i].path))]);
    }
  }

  /** One slot per document, each holding the search term as its only snippet. */
  function TermSlots(docs: seq<Doc>, term: string): (r: seq<Option<PageResult>>)
    ensures |r| == |docs|
  {
    seq(|docs|, j requires 0 <= j < |docs| => Some(PageResult([term], docs[j].page, docs[j].path)))
  }

  /** For BOOLEAN the `findIn` loop never breaks down and gives every document the search term as its snippet. */
  lemma {:induction false} FillInBoolean(docs: seq<Doc>, i: nat, h: Highlight, acc: seq<Option<PageResult>>)
    requires i <= |docs| && acc == TermSlots(docs, h.term)[..i]
    requires h.qtype == QUERY_BOOLEAN && h.maxResults > 0
    ensures FillIn(docs, i, 0, h, acc) == Assembled(TermSlots(docs, h.term), |docs|, false)
    decreases |docs| - i
  {
    if i == |docs| {
      FillInStop(docs, i, 0, h, acc);
    } else {
      var sn := [h.term];
      FillInStep(docs, i, 0, h, acc, sn);
      assert acc + [Some(PageResult(sn, docs[i].page, docs[i].path))] == TermSlots(docs, h.term)[..i + 1];
      FillInBoolean(docs, i + 1, h, acc + [Some(PageResult(sn, docs[i].page, docs[i].path))]);
    }
  }

  /**
   * `findIn` throws when the search fails; otherwise it replies with one
   * slot per readable document of the window (so at most `maxResults`),
   * each filled slot carrying its document's page and path; for BOOLEAN
   * every slot holds exactly the search term; for STANDARD the slots hold
   * at most `maxResults` snippets in all.
   */
  lemma InRunReply(engine: Engine, open: bool, term: string, field: string, constrainValues: seq<string>,
                   constrainField: string, maxResults: nat, pageSet: nat, qtype: int)
    requires maxResults > 0 && open
    ensures var run := InRun(engine, open, term, field, constrainValues, constrainField, maxResults, pageSet, qtype);
      match BuildQuery(qtype, term, field, engine.parses)
      case None => run.reply == Value([])
      case Some(q) =>
        var filter := FilterOf(constrainField, constrainValues);
        var docs := Readable(Window(engine.matches(q, filter), maxResults, pageSet), engine.readFails);
        && (engine.searchFails(q, filter) ==> run.reply == Throws)
        && (qtype == QUERY_BOOLEAN && !engine.searchFails(q, filter) ==> run.reply == Value(TermSlots(docs, term)))
        && (run.reply.Value? ==>
            && |run.reply.value| == |docs| <= maxResults
            && FromDocs(run.reply.value, docs)
            && (qtype == QUERY_STANDARD && KeepsFragmentCount(engine.fragments) ==> SnippetCount(run.reply.value) <= maxResults))
  {
    match BuildQuery(qtype, term, field, engine.parses)
    case None =>
    case Some(q) =>
      var h := Highlight(qtype, term, q, engine.fragments, maxResults);
      var all := engine.matches(q, FilterOf(constrainField, constrainValues));
      WindowOfLimitedHits(all, maxResults, pageSet);
      var docs := Readable(Window(all, maxResults, pageSet), engine.readFails);
      FillInSlots(docs, 0, 0, h, []);
      if qtype == QUERY_BOOLEAN {
        FillInBoolean(docs, 0, h, []);
      } else if KeepsFragmentCount(engine.fragments) {
        FillInBudget(docs, 0, 0, h, []);
      }
  }

  function ResultPage(r: PageResult): int { r.page }

  /** The `find` loop gives each result its document's page and the constraint value as its source. */
  lemma {:induction false} FillAllResults(docs: seq<Doc>, i: nat, used: int, h: Highlight, source: string, acc: seq<PageResult>)
    requires i <= |docs| && |acc| == i
    requires forall j :: 0 <= j < i ==> acc[j].page == docs[j].page && acc[j].source == source
    ensures var a := FillAll(docs, i, used, h, source, acc);
      !a.failed ==> forall j :: 0 <= j < |docs| ==> a.items[j].page == docs[j].page && a.items[j].source == source
    decreases |docs| - i
  {
    if i < |docs| {
      match Snippets(h, docs[i], h.maxResults - used)
      case None =>
      case Some(sn) =>
        FillAllStep(docs, i, used, h, source, acc, sn);
        FillAllResults(docs, i + 1, used + Counted(h.qtype, sn), h, source, acc + [PageResult(sn, docs[i].page, source)]);
    }
  }

  /** The results of `find` keep the order of the documents they come from. */
  lemma FillAllKeepsOrder(docs: seq<Doc>, h: Highlight, source: string, page: int)
    requires PageOrder.WrapOrdered(docs, PageOf, page)
    ensures var a := FillAll(docs, 0, 0, h, source, []);
      !a.failed ==> PageOrder.WrapOrdered(a.items, ResultPage, page) && forall j :: 0 <= j < |a.items| ==> a.items[j].source == source
  {
    var a := FillAll(docs, 0, 0, h, source, []);
    FillAllResults(docs, 0, 0, h, source, []);
    if !a.failed {
      forall i, j | 0 <= i < j < |a.items|
        ensures ResultPage(a.items[j]) >= page ==> ResultPage(a.items[i]) >= page
        ensures (ResultPage(a.items[i]) >= page) == (ResultPage(a.items[j]) >= page) ==>
                ResultPage(a.items[i]) <= ResultPage(a.items[j])
      {
        assert ResultPage(a.items[i]) == PageOf(docs[i]) && ResultPage(a.items[j]) == PageOf(docs[j]);
      }
    }
  }


  /**
   * With at least `SearchLimit` matches, the hits of `find` fill the limit
   * and the window read from them is in page-wrapping order.
   */
  lemma SortedWindowWraps(all: seq<Doc>, hits: seq<Doc>, maxResults: nat, pageSet: nat, page: int)
    requires |all| >= SearchLimit(maxResults, pageSet)
    requires hits == PageOrder.Collect(all, PageOf, page, SearchLimit(maxResults, pageSet), PageOrder.AsWritten)
    ensures |hits| == SearchLimit(maxResults, pageSet) && maxResults * pageSet <= |hits|
    ensures PageOrder.WrapOrdered(hits[maxResults * pageSet..], PageOf, page)
  {
    var limit := SearchLimit(maxResults, pageSet);
    MulMonotone(maxResults, 0, pageSet);
    var lo := maxResults * pageSet;
    assert 0 <= lo <= limit;
    PageOrder.CollectSorted(all, PageOf, page, limit, PageOrder.AsWritten);
    PageOrder.SortedWrapsAtPage(hits, PageOf, page);
    PageOrder.WrapOrderedSlice(hits, PageOf, page, lo, limit);
    assert hits[lo..] == hits[lo..limit];
  }

  /**
   * `find` throws when its search fails, or once the index holds fewer
   * than `maxResults*pageSet + maxResults` matches; when it replies, the
   * results are the pages of the readable documents among the last
   * `maxResults` of the `maxResults*pageSet + maxResults` hits the
   * collector kept (all of them when every one can be read), one result
   * each, in page-wrapping order (every page from the start page on before
   * every earlier page, each group ascending), all attributed to the
   * constraint value.
   */
  lemma PagedRunReply(engine: Engine, open: bool, term: string, field: string, constrainValue: string,
                      constrainField: string, maxResults: nat, pageSet: nat, qtype: int, page: int)
    requires maxResults > 0 && open
    ensures var run := PagedRun(engine, open, term, field, constrainValue, constrainField, maxResults, pageSet, qtype, page);
      match BuildQuery(qtype, term, field, engine.parses)
      case None => run.reply == Value([])
      case Some(q) =>
        var filter := FilterOf(constrainField, [constrainValue]);
        var all := engine.matches(q, filter);
        var hits := SortedHits(engine, q, constrainField, constrainValue, maxResults, pageSet, page);
        && (engine.searchFails(q, filter) ==> run.reply == Throws)
        && (!engine.searchFails(q, filter) ==> (run.reply.Throws? <==> |all| < SearchLimit(maxResults, pageSet)))
        && (run.reply.Value? ==>
            && |hits| == SearchLimit(maxResults, pageSet) && maxResults <= |hits|
            && var docs := Readable(hits[|hits| - maxResults..], engine.readFails);
            && |run.reply.value| == |docs| <= maxResults
            && (forall j :: 0 <= j < |docs| ==>
                  run.reply.value[j].page == docs[j].page && run.reply.value[j].source == constrainValue)
            && (AllReadable(hits[|hits| - maxResults..], engine.readFails) ==> docs == hits[|hits| - maxResults..])
            && PageOrder.WrapOrdered(run.reply.value, ResultPage, page))
  {
    match BuildQuery(qtype, term, field, engine.parses)
    case None =>
    case Some(q) =>
      var filter := FilterOf(constrainField, [constrainValue]);
      var all := engine.matches(q, filter);
      var limit := SearchLimit(maxResults, pageSet);
      var hits := SortedHits(engine, q, constrainField, constrainValue, maxResults, pageSet, page);
      var lo := maxResults * pageSet;
      assert 0 <= lo < limit by { MulMonotone(maxResults, 0, pageSet); }
      var run := PagedRun(engine, open, term, field, constrainValue, constrainField, maxResults, pageSet, qtype, page);
      if engine.searchFails(q, filter) {
      } else if |all| >= limit {
        PagedFullWindow(engine, term, field, constrainValue, constrainField, maxResults, pageSet, qtype, page, q);
      } else {
        assert run.reply == Throws by {
          assert FindWindowAsWritten(hits, lo, limit) == Throws;
        }
      }
  }

  /** The part of `PagedRunReply` where the search succeeds and fills the limit. */
  lemma PagedFullWindow(engine: Engine, term: string, field: string, constrainValue: string,
                        constrainField: string, maxResults: nat, pageSet: nat, qtype: int, page: int, q: Query)
    requires maxResults > 0
    requires BuildQuery(qtype, term, field, engine.parses) == Some(q)
    requires !engine.searchFails(q, FilterOf(constrainField, [constrainValue]))
    requires |engine.matches(q, FilterOf(constrainField, [constrainValue]))| >= SearchLimit(maxResults, pageSet)
    ensures var run := PagedRun(engine, true, term, field, constrainValue, constrainField, maxResults, pageSet, qtype, page);
      var hits := SortedHits(engine, q, constrainField, constrainValue, maxResults, pageSet, page);
      && !run.reply.Throws?
      && (run.reply.Value? ==>
          && |hits| == SearchLimit(maxResults, pageSet) && maxResults <= |hits|
          && var docs := Readable(hits[|hits| - maxResults..], engine.readFails);
          && |run.reply.value| == |docs| <= maxResults
          && (forall j :: 0 <= j < |docs| ==>
                run.reply.value[j].page == docs[j].page && run.reply.value[j].source == constrainValue)
          && (AllReadable(hits[|hits| - maxResults..], engine.readFails) ==> docs == hits[|hits| - maxResults..])
          && PageOrder.WrapOrdered(run.reply.value, ResultPage, page))
  {
    var all := engine.matches(q, FilterOf(constrainField, [constrainValue]));
    var limit := SearchLimit(maxResults, pageSet);
    var hits := SortedHits(engine, q, constrainField, constrainValue, maxResults, pageSet, page);
    var lo := maxResults * pageSet;
    assert 0 <= lo < limit by { MulMonotone(maxResults, 0, pageSet); }
    var run := PagedRun(engine, true, term, field, constrainValue, constrainField, maxResults, pageSet, qtype, page);
    assert |hits| == limit && PageOrder.WrapOrdered(hits[lo..], PageOf, page) by {
      SortedWindowWraps(all, hits, maxResults, pageSet, page);
    }
    var tail := hits[lo..];
    assert |hits| - maxResults == lo && |tail| == maxResults;
    assert hits[|hits| - maxResults..] == tail;
    var docs := Readable(tail, engine.readFails);
    assert |docs| <= maxResults;
    var h := Highlight(qtype, term, q, engine.fragments, maxResults);
    var r := FillAll(docs, 0, 0, h, constrainValue, []);
    assert run.reply == if r.failed then Null else Value(r.items) by {
      assert FindWindowAsWritten(hits, lo, limit) == Value(tail);
    }
    ReadableWrapOrdered(tail, engine.readFails, page);
    WindowReply(docs, h, constrainValue, page);
    if AllReadable(tail, engine.readFails) {
      ReadableAllRead(tail, engine.readFails);
    }
  }

  /** The results `find` assembles from the documents read: one per page, from the constrained file, in wrapped order. */
  lemma WindowReply(docs: seq<Doc>, h: Highlight, source: string, page: int)
    requires PageOrder.WrapOrdered(docs, PageOf, page)
    ensures var a := FillAll(docs, 0, 0, h, source, []);
      !a.failed ==>
        && |a.items| == |docs|
        && (forall j :: 0 <= j < |docs| ==> a.items[j].page == docs[j].page && a.items[j].source == source)
        && PageOrder.WrapOrdered(a.items, ResultPage, page)
  {
    FillAllKeepsOrder(docs, h, source, page);
    FillAllResults(docs, 0, 0, h, source, []);
  }

  /**
   * Four pages of one file indexed in page order, one result per set, from
   * page 2: the collector's one slot takes page 0 first, and its
   * `compareBottom` then turns every later page away, so `find` replies
   * with page 0 (when it can read it), where the page-wrapping order it is
   * asked for starts with page 2.
   */
  lemma FindKeepsFirstArrival(engine: Engine, term: string, field: string, constrainValue: string,
                              constrainField: string, qtype: int, q: Query, d0: Doc, d1: Doc, d2: Doc, d3: Doc)
    requires BuildQuery(qtype, term, field, engine.parses) == Some(q)
    requires engine.matches(q, FilterOf(constrainField, [constrainValue])) == [d0, d1, d2, d3]
    requires d0.page == 0 && d1.page == 1 && d2.page == 2 && d3.page == 3 && !engine.readFails(d0)
    ensures SortedHits(engine, q, constrainField, constrainValue, 1, 0, 2) == [d0]
    ensures var run := PagedRun(engine, true, term, field, constrainValue, constrainField, 1, 0, qtype, 2);
      run.reply.Value? ==> |run.reply.value| == 1 && run.reply.value[0].page == 0
    ensures Take(PageOrder.SortByPage([d0, d1, d2, d3], PageOf, 2), SearchLimit(1, 0)) == [d2]
  {
    FirstArrivalKept(d0, d1, d2, d3);
    KeptHitReply(engine, term, field, constrainValue, constrainField, qtype, q, d0, 2);
    WrappedOrderStartsAtTwo(d0, d1, d2, d3);
  }

  /** With one result per set and the collector keeping the one readable hit `d0`, a reply of `find` is `d0`'s page. */
  lemma KeptHitReply(engine: Engine, term: string, field: string, constrainValue: string,
                     constrainField: string, qtype: int, q: Query, d0: Doc, page: int)
    requires BuildQuery(qtype, term, field, engine.parses) == Some(q)
    requires SortedHits(engine, q, constrainField, constrainValue, 1, 0, page) == [d0]
    requires !engine.readFails(d0)
    ensures var run := PagedRun(engine, true, term, field, constrainValue, constrainField, 1, 0, qtype, page);
      run.reply.Value? ==> |run.reply.value| == 1 && run.reply.value[0].page == d0.page
  {
    if !engine.searchFails(q, FilterOf(constrainField, [constrainValue])) {
      var hits := SortedHits(engine, q, constrainField, constrainValue, 1, 0, page);
      assert FindWindowAsWritten(hits, 1 * 0, SearchLimit(1, 0)) == Value([d0]);
      assert Readable([d0], engine.readFails) == [d0] by {
        ReadableAllRead([d0], engine.readFails);
      }
      var h := Highlight(qtype, term, q, engine.fragments, 1);
      var a := FillAll([d0], 0, 0, h, constrainValue, []);
      var run := PagedRun(engine, true, term, field, constrainValue, constrainField, 1, 0, qtype, page);
      assert run.reply == if a.failed then Null else Value(a.items);
      WindowReply([d0], h, constrainValue, page);
    }
  }

  lemma FirstArrivalKept(d0: Doc, d1: Doc, d2: Doc, d3: Doc)
    requires d0.page == 0 && d1.page == 1 && d2.page == 2 && d3.page == 3
    ensures PageOrder.Collect([d0, d1, d2, d3], PageOf, 2, 1, PageOrder.AsWritten) == [d0]
  {
    var c1 := PageOrder.Collect([d0], PageOf, 2, 1, PageOrder.AsWritten);
    assert c1 == [d0] by {
      assert [d0][..0] == [];
    }
    var c2 := PageOrder.Collect([d0, d1], PageOf, 2, 1, PageOrder.AsWritten);
    assert c2 == [d0] by {
      assert [d0, d1][..1] == [d0];
      assert !PageOrder.Competitive(PageOrder.AsWritten, 0, 1, 2);
    }
    var c3 := PageOrder.Collect([d0, d1, d2], PageOf, 2, 1, PageOrder.AsWritten);
    assert c3 == [d0] by {
      assert [d0, d1, d2][..2] == [d0, d1];
      assert !PageOrder.Competitive(PageOrder.AsWritten, 0, 2, 2);
    }
    assert [d0, d1, d2, d3][..3] == [d0, d1, d2];
    assert !PageOrder.Competitive(PageOrder.AsWritten, 0, 3, 2);
  }

  lemma WrappedOrderStartsAtTwo(d0: Doc, d1: Doc, d2: Doc, d3: Doc)
    requires d0.page == 0 && d1.page == 1 && d2.page == 2 && d3.page == 3
    ensures Take(PageOrder.SortByPage([d0, d1, d2, d3], PageOf, 2), SearchLimit(1, 0)) == [d2]
  {
    var o1 := PageOrder.SortByPage([d0], PageOf, 2);
    assert o1 == [d0] by {
      assert [d0][..0] == [];
    }
    var o2 := PageOrder.SortByPage([d0, d1], PageOf, 2);
    assert o2 == [d0, d1] by {
      assert [d0, d1][..1] == [d0];
      assert PageOrder.InsertByPage(d1, [d0], PageOf, 2) == [d0] + PageOrder.InsertByPage(d1, [], PageOf, 2);
    }
    var o3 := PageOrder.SortByPage([d0, d1, d2], PageOf, 2);
    assert o3 == [d2, d0, d1] by {
      assert [d0, d1, d2][..2] == [d0, d1];
    }
    assert [d0, d1, d2, d3][..3] == [d0, d1, d2];
    var o4 := PageOrder.SortByPage([d0, d1, d2, d3], PageOf, 2);
    assert o4 == [d2] + PageOrder.InsertByPage(d3, [d0, d1], PageOf, 2) by {
      assert [d0, d1] == [d2, d0, d1][1..];
    }
    assert o4[..1] == [d2];
  }

  // ----- the loops over the hit list -----

  /**
   * The window loop of `findName` and `findIn`: both bounds must hold, and
   * a document whose read fails is skipped.
   */
  method ReadWindow(hits: seq<Doc>, maxResults: nat, pageSet: nat, readFails: Doc -> bool) returns (docs: seq<Doc>)
    ensures docs == Readable(Window(hits, maxResults, pageSet), readFails)
  {
    var lo := maxResults * pageSet;
    docs := [];
    if lo >= |hits| {
      return;
    }
    var i := lo;
    while i < |hits| && i < lo + maxResults
      invariant lo <= i <= Min(|hits|, lo + maxResults)
      invariant docs == Readable(hits[lo..i], readFails)
    {
      ReadableExtend(hits, lo, i, readFails);
      if !readFails(hits[i]) {
        docs := docs + [hits[i]];
      }
      i := i + 1;
    }
    assert Window(hits, maxResults, pageSet) == Slice(hits, lo, maxResults) == hits[lo..i];
  }

  /**
   * The window loop of `find`, with its bounds joined by `||`: reading past
   * the end throws, and a document whose read fails is skipped.
   */
  method ReadWindowAsWritten(hits: seq<Doc>, lo: nat, hi: nat, readFails: Doc -> bool) returns (r: Reply<seq<Doc>>)
    requires lo < hi
    ensures r.Throws? <==> FindWindowAsWritten(hits, lo, hi).Throws?
    ensures !r.Null?
    ensures r.Value? ==> r.value == Readable(FindWindowAsWritten(hits, lo, hi).value, readFails)
  {
    var docs: seq<Doc> := [];
    var i := lo;
    while i < |hits| || i < hi
      invariant lo <= i
      invariant i == lo || i <= |hits|
      invariant docs == if i == lo then [] else Readable(hits[lo..i], readFails)
      decreases Max(|hits|, hi) - i
    {
      if i >= |hits| {
        return Throws;
      }
      assert docs == Readable(hits[lo..i], readFails) by {
        if i == lo {
          assert hits[lo..i] == [];
        }
      }
      ReadableExtend(hits, lo, i, readFails);
      if !readFails(hits[i]) {
        docs := docs + [hits[i]];
      }
      i := i + 1;
    }
    assert i == |hits| && hits[lo..i] == hits[lo..];
    r := Value(docs);
  }

  /**
   * The searcher object: the index it opened (`open` is false when opening
   * the index directory failed in the constructor) and the interrupt flag.
   */
  class FileSearcher {
    const engine: Engine
    var open: bool
    var interrupted: bool

    constructor (engine: Engine, indexOpened: bool)
      ensures this.engine == engine && open == indexOpened && !interrupted
    {
      this.engine := engine;
      open := indexOpened;
      interrupted := false;
    }

    /** `interrupt()`: raises the flag and reports whether it was already up. */
    method Interrupt() returns (wasInterrupted: bool)
      modifies this`interrupted
      ensures wasInterrupted == old(interrupted) && interrupted
    {
      wasInterrupted := interrupted;
      interrupted := true;
    }

    /** An interrupt checkpoint: the other thread's `interrupt()` has landed once `checkpoint` reaches `interruptAt`. */
    method Poll(checkpoint: nat, interruptAt: nat) returns (seen: bool)
      modifies this`interrupted
      ensures interrupted == (old(interrupted) || interruptAt <= checkpoint)
      ensures seen == interrupted
    {
      if interruptAt <= checkpoint {
        var _ := Interrupt();
      }
      seen := interrupted;
    }

    /**
     * `checkForIndex(field, value)`: with an open searcher, whether some
     * document has `value` in `field`, or the escaping IOException when the
     * search fails. Otherwise the index directory is opened again and the
     * answer is false; `reopens` says whether that succeeds, and when it
     * does not the IOException escapes and the searcher stays closed.
     */
    method CheckForIndex(field: string, value: string, reopens: bool) returns (r: Reply<bool>)
      modifies this`open
      ensures old(open) && engine.lookupFails(KeyQuery(field, value)) ==> open && r == Throws
      ensures old(open) && !engine.lookupFails(KeyQuery(field, value)) ==>
        open && r == Value(engine.lookup(KeyQuery(field, value)) != [])
      ensures !old(open) && reopens ==> open && r == Value(false)
      ensures !old(open) && !reopens ==> !open && r == Throws
    {
      if open {
        if engine.lookupFails(KeyQuery(field, value)) {
          return Throws;
        }
        var hits := Take(engine.lookup(KeyQuery(field, value)), 1);
        return Value(|hits| > 0);
      }
      if !reopens {
        return Throws;
      }
      open := true;
      r := Value(false);
    }

    /**
     * `getDocument(field, value)`: the best document with `value` in
     * `field`, or null when none matches or the searcher is closed; an
     * IOException from the search or from reading the document escapes.
     */
    method GetDocument(field: string, value: string) returns (r: Reply<Doc>)
      ensures !open ==> r == Null
      ensures open && engine.lookupFails(KeyQuery(field, value)) ==> r == Throws
      ensures open && !engine.lookupFails(KeyQuery(field, value)) ==>
        var found := engine.lookup(KeyQuery(field, value));
        && (found == [] ==> r == Null)
        && (found != [] ==> r == if engine.readFails(found[0]) then Throws else Value(found[0]))
    {
      if !open {
        return Null;
      }
      if engine.lookupFails(KeyQuery(field, value)) {
        return Throws;
      }
      var hits := Take(engine.lookup(KeyQuery(field, value)), 1);
      if |hits| == 0 {
        return Null;
      }
      if engine.readFails(hits[0]) {
        return Throws;
      }
      r := Value(hits[0]);
    }

    /**
     * `getMetaFile(path)`: the document whose `id` is the path's metadata
     * id, or null. An unopened searcher, or a failing search (whose hit
     * list stays null), makes it throw; a failing read is logged and gives
     * null.
     */
    method GetMetaFile(path: string) returns (r: Reply<Doc>)
      ensures !open || engine.lookupFails(KeyQuery("id", MetaId(path))) <==> r.Throws?
      ensures open && !engine.lookupFails(KeyQuery("id", MetaId(path))) ==>
        var found := engine.lookup(KeyQuery("id", MetaId(path)));
        && (r.Null? <==> found == [] || engine.readFails(found[0]))
        && (r.Value? ==> r.value == found[0])
    {
      if !open {
        return Throws;
      }
      var searchFailed := engine.lookupFails(KeyQuery("id", MetaId(path)));
      if searchFailed {
        return Throws;
      }
      var hits := Take(engine.lookup(KeyQuery("id", MetaId(path))), 1);
      if |hits| == 0 {
        return Null;
      }
      if engine.readFails(hits[0]) {
        return Null;
      }
      r := Value(hits[0]);
    }

    /** `findName`: the paths of the window of hits, or null once an interrupt is seen. */
    method FindName(term: string, field: string, constrainValues: seq<string>, constrainField: string,
                    maxResults: nat, pageSet: nat, qtype: int, interruptAt: nat) returns (r: Reply<seq<string>>)
      modifies this`interrupted
      ensures var run := NameRun(engine, open, term, field, constrainValues, constrainField, maxResults, pageSet, qtype);
        && interrupted == (old(interrupted) || interruptAt < run.checkpoints)
        && r == if interrupted then Null else run.reply
    {
      ghost var run := NameRun(engine, open, term, field, constrainValues, constrainField, maxResults, pageSet, qtype);
      var seen := Poll(0, interruptAt);
      if seen {
        return Null;
      }
      var q := BuildQuery(qtype, term, field, engine.parses);
      seen := Poll(1, interruptAt);
      if seen {
        return Null;
      }
      if q.None? {
        assert run == Run(Value([]), 2);
        return Value([]);
      }
      var filter := BuildFilter(constrainField, constrainValues);
      assert filter == FilterOf(constrainField, constrainValues);
      if maxResults == 0 || !open {
        assert run == Run(Throws, 2);
        return Throws;
      }
      var searchFailed := engine.searchFails(q.value, filter);
      var hits := if searchFailed then [] else Take(engine.matches(q.value, filter), SearchLimit(maxResults, pageSet));
      seen := Poll(2, interruptAt);
      if seen {
        return Null;
      }
      if searchFailed {
        assert run == Run(Throws, 3);
        return Throws;
      }
      var docs := ReadWindow(hits, maxResults, pageSet, engine.readFails);
      var paths: seq<string> := [];
      var i := 0;
      while i < |docs|
        invariant 0 <= i <= |docs| && paths == Paths(docs[..i])
      {
        paths := paths + [docs[i].path];
        i := i + 1;
      }
      assert docs[..i] == docs;
      seen := Poll(3, interruptAt);
      if seen {
        return Null;
      }
      r := Value(paths);
    }

    /**
     * The body of the `findIn` assembly loop for document `i`: fills slot
     * `i` and reports the new fragment count, or reports the breakdown.
     */
    method FillSlot(docs: seq<Doc>, i: nat, numResults: int, ghost filled: seq<Option<PageResult>>,
                    results: array<Option<PageResult>>, h: Highlight)
      returns (filledSlot: bool, used: int)
      requires i < |docs| == results.Length && |filled| == i && numResults < h.maxResults
      modifies results
      ensures filledSlot ==>
        FillIn(docs, i, numResults, h, filled) == FillIn(docs, i + 1, used, h, filled + [results[i]])
      ensures !filledSlot ==>
        FillIn(docs, i, numResults, h, filled) == Assembled(filled + Unset(|docs| - i), i + 1, true)
      ensures forall j :: 0 <= j < results.Length && j != i ==> results[j] == old(results[j])
    {
      var d := docs[i];
      var sn := Snippets(h, d, h.maxResults - numResults);
      if sn.None? {
        FillInFail(docs, i, numResults, h, filled);
        return false, numResults;
      }
      FillInStep(docs, i, numResults, h, filled, sn.value);
      results[i] := Some(PageResult(sn.value, d.page, d.path));
      filledSlot, used := true, numResults + Counted(h.qtype, sn.value);
    }

    /**
     * The assembly loop of `findIn`: checkpoint `4 + i` opens iteration `i`;
     * `next` is the checkpoint after the loop.
     */
    method AssembleSlots(docs: seq<Doc>, h: Highlight, interruptAt: nat)
      returns (r: Reply<seq<Option<PageResult>>>, next: nat)
      requires !interrupted && interruptAt > 3
      modifies this`interrupted
      ensures var a := FillIn(docs, 0, 0, h, []);
        && interrupted == (interruptAt < 4 + a.steps)
        && (!interrupted ==> next == 4 + a.steps)
        && r == (if interrupted || a.failed then Null else Value(a.items))
    {
      ghost var spec := FillIn(docs, 0, 0, h, []);
      var numResults := 0;
      var results := new Option<PageResult>[|docs|](_ => None);
      ghost var filled: seq<Option<PageResult>> := [];
      var i := 0;
      while i < |docs| && numResults < h.maxResults
        invariant 0 <= i <= |docs| && results.Length == |docs| && |filled| == i
        invariant !interrupted && interruptAt > 3 + i
        invariant forall j :: 0 <= j < i ==> results[j] == filled[j]
        invariant forall j :: i <= j < |docs| ==> results[j] == None
        invariant FillIn(docs, i, numResults, h, filled) == spec
      {
        var seen := Poll(4 + i, interruptAt);
        if seen {
          return Null, 0;
        }
        var filledSlot;
        filledSlot, numResults := FillSlot(docs, i, numResults, filled, results, h);
        if !filledSlot {
          return Null, 5 + i;
        }
        filled := filled + [results[i]];
        i := i + 1;
      }
      FillInStop(docs, i, numResults, h, filled);
      UnsetNone(|docs| - i);
      assert results[..] == filled + Unset(|docs| - i);
      r, next := Value(results[..]), 4 + i;
    }

    /** `findIn`: one result slot per document of the window, or null. */
    method FindIn(term: string, field: string, constrainValues: seq<string>, constrainField: string,
                  maxResults: nat, pageSet: nat, qtype: int, interruptAt: nat) returns (r: Reply<seq<Option<PageResult>>>)
      modifies this`interrupted
      ensures var run := InRun(engine, open, term, field, constrainValues, constrainField, maxResults, pageSet, qtype);
        && interrupted == (old(interrupted) || interruptAt < run.checkpoints)
        && r == if interrupted then Null else run.reply
    {
      ghost var run := InRun(engine, open, term, field, constrainValues, constrainField, maxResults, pageSet, qtype);
      var seen := Poll(0, interruptAt);
      if seen {
        return Null;
      }
      var q := BuildQuery(qtype, term, field, engine.parses);
      seen := Poll(1, interruptAt);
      if seen {
        return Null;
      }
      if q.None? {
        assert run == Run(Value([]), 2);
        return Value([]);
      }
      var filter := BuildFilter(constrainField, constrainValues);
      assert filter == FilterOf(constrainField, constrainValues);
      if maxResults == 0 || !open {
        assert run == Run(Throws, 2);
        return Throws;
      }
      var searchFailed := engine.searchFails(q.value, filter);
      var hits := if searchFailed then [] else Take(engine.matches(q.value, filter), SearchLimit(maxResults, pageSet));
      seen := Poll(2, interruptAt);
      if seen {
        return Null;
      }
      if searchFailed {
        assert run == Run(Throws, 3);
        return Throws;
      }
      var docs := ReadWindow(hits, maxResults, pageSet, engine.readFails);
      seen := Poll(3, interruptAt);
      if seen {
        return Null;
      }
      var slots, next := AssembleSlots(docs, Highlight(qtype, term, q.value, engine.fragments, maxResults), interruptAt);
      if slots.Null? {
        return Null;
      }
      seen := Poll(next, interruptAt);
      if seen {
        return Null;
      }
      r := slots;
    }

    /**
     * The assembly loop of `find`: like that of `findIn` but over every
     * document, appending to a list, and lowering the flag when it gives up
     * on an interrupt; `next` is the checkpoint after the loop.
     */
    method AssembleResults(docs: seq<Doc>, h: Highlight, source: string, interruptAt: nat)
      returns (r: Reply<seq<PageResult>>, next: nat)
      requires !interrupted && interruptAt > 3
      modifies this`interrupted
      ensures !interrupted
      ensures var a := FillAll(docs, 0, 0, h, source, []);
        && r == (if interruptAt < 4 + a.steps || a.failed then Null else Value(a.items))
        && (r.Value? ==> next == 4 + a.steps)
    {
      ghost var spec := FillAll(docs, 0, 0, h, source, []);
      var numResults := 0;
      var results: seq<PageResult> := [];
      var i := 0;
      while i < |docs|
        invariant 0 <= i <= |docs| && |results| == i
        invariant !interrupted && interruptAt > 3 + i
        invariant FillAll(docs, i, numResults, h, source, results) == spec
      {
        var seen := Poll(4 + i, interruptAt);
        if seen {
          interrupted := false;
          return Null, 0;
        }
        var d := docs[i];
        var sn := Snippets(h, d, h.maxResults - numResults);
        if sn.None? {
          return Null, 0;
        }
        FillAllStep(docs, i, numResults, h, source, results, sn.value);
        numResults := numResults + Counted(h.qtype, sn.value);
        results := results + [PageResult(sn.value, d.page, source)];
        i := i + 1;
      }
      r, next := Value(results), 4 + i;
    }

    /**
     * The rest of `find` after checkpoint 2: the `||` window loop, then
     * checkpoint 3, the assembly loop and the checkpoint after it. An
     * interrupt seen here lowers the flag again.
     */
    method ReadAndAssemble(hits: seq<Doc>, lo: nat, limit: nat, h: Highlight, source: string, interruptAt: nat)
      returns (r: Reply<seq<PageResult>>)
      requires lo < limit && !interrupted && interruptAt > 2
      modifies this`interrupted
      ensures !interrupted
      ensures var run := WindowRun(hits, lo, limit, h, source, engine.readFails);
        r == if interruptAt < run.checkpoints then Null else run.reply
    {
      var window := ReadWindowAsWritten(hits, lo, limit, engine.readFails);
      if window.Throws? {
        return Throws;
      }
      var seen := Poll(3, interruptAt);
      if seen {
        interrupted := false;
        return Null;
      }
      var results, next := AssembleResults(window.value, h, source, interruptAt);
      if results.Null? {
        return Null;
      }
      seen := Poll(next, interruptAt);
      if seen {
        interrupted := false;
        return Null;
      }
      r := results;
    }

    /**
     * `find`: the results of one file from a start page on, or null. Unlike
     * `findName` and `findIn` it lowers the flag again when it gives up on
     * an interrupt, except at the checkpoint right after the search.
     */
    method Find(term: string, field: string, constrainValue: string, constrainField: string,
                maxResults: nat, pageSet: nat, qtype: int, page: int, interruptAt: nat) returns (r: Reply<seq<PageResult>>)
      modifies this`interrupted
      ensures var run := PagedRun(engine, open, term, field, constrainValue, constrainField, maxResults, pageSet, qtype, page);
        var stoppedAt: Option<nat> := if old(interrupted) then Some(0)
                                      else if interruptAt < run.checkpoints then Some(interruptAt) else None;
        && interrupted == (stoppedAt == Some(2))
        && r == if stoppedAt.Some? then Null else run.reply
    {
      var seen := Poll(0, interruptAt);
      if seen {
        interrupted := false;
        return Null;
      }
      var q := BuildQuery(qtype, term, field, engine.parses);
      seen := Poll(1, interruptAt);
      if seen {
        interrupted := false;
        return Null;
      }
      if q.None? {
        return Value([]);
      }
      r := SearchPaged(q.value, term, constrainValue, constrainField, maxResults, pageSet, qtype, page, interruptAt);
    }

    /**
     * `find` once its query is built: the filter, the search, checkpoint 2
     * (where an interrupt leaves the flag raised), then the window loop and
     * the assembly.
     */
    method SearchPaged(q: Query, term: string, constrainValue: string, constrainField: string,
                       maxResults: nat, pageSet: nat, qtype: int, page: int, interruptAt: nat) returns (r: Reply<seq<PageResult>>)
      requires !interrupted && interruptAt > 1
      modifies this`interrupted
      ensures var run := PagedSearch(engine, open, q, term, constrainValue, constrainField, maxResults, pageSet, qtype, page);
        var stopped := interruptAt < run.checkpoints;
        && interrupted == (stopped && interruptAt == 2)
        && r == if stopped then Null else run.reply
    {
      ghost var run := PagedSearch(engine, open, q, term, constrainValue, constrainField, maxResults, pageSet, qtype, page);
      var filter := BuildFilter(constrainField, [constrainValue]);
      assert filter == FilterOf(constrainField, [constrainValue]);
      if maxResults == 0 || !open {
        assert run == Run(Throws, 2);
        return Throws;
      }
      var searchFailed := engine.searchFails(q, filter);
      var hits := if searchFailed then [] else PageOrder.Collect(engine.matches(q, filter), PageOf, page, SearchLimit(maxResults, pageSet), PageOrder.AsWritten);
      var seen := Poll(2, interruptAt);
      if seen {
        interrupted := true;
        return Null;
      }
      if searchFailed {
        assert run == Run(Throws, 3);
        return Throws;
      }
      assert hits == SortedHits(engine, q, constrainField, constrainValue, maxResults, pageSet, page);
      var lo := maxResults * pageSet;
      MulMonotone(maxResults, 0, pageSet);
      var h := Highlight(qtype, term, q, engine.fragments, maxResults);
      r := ReadAndAssemble(hits, lo, SearchLimit(maxResults, pageSet), h, constrainValue, interruptAt);
      assert run == WindowRun(hits, lo, SearchLimit(maxResults, pageSet), h, constrainValue, engine.readFails);
    }
  }
}
