/**
 * The queries FileSearcher hands to Lucene, the documents Lucene hands back,
 * and the parts of Lucene the searcher relies on, seen from outside: whether
 * the classic QueryParser accepts a text, the ranked documents a query and
 * filter match, and the highlighter's fragments for a stored text.
 */
module Query {
  import opened Common

  /** `FileSearcher.QUERY_BOOLEAN` and `FileSearcher.QUERY_STANDARD` */
  const QUERY_BOOLEAN: int := 0
  const QUERY_STANDARD: int := 1

  datatype Term = Term(field: string, text: string)

  datatype Query =
    | TermQuery(term: Term)
    | WildcardQuery(term: Term)
      /** What QueryParser builds from `text` with `field` as the default field. */
    | Parsed(field: string, text: string)
      /** A BooleanQuery all of whose clauses are `BooleanClause.Occur.MUST`. */
    | MustAll(clauses: seq<Query>)

  /** A stored index document: its `id`, `path`, `page` and `text` fields. */
  datatype Doc = Doc(id: string, path: string, page: int, text: string)

  /** `ca.dracode.ais.indexdata.PageResult`: the snippets shown for one page of one file. */
  datatype PageResult = PageResult(snippets: seq<string>, page: int, source: string)

  /**
   * The index as one IndexSearcher sees it.
   * - `parses(field, text)`: QueryParser.parse(text) does not throw ParseException;
   * - `matches(query, filter)`: the documents matching both, best first
   *   (for a sorted search, in index order, which decides ties);
   * - `lookup(query)`: the documents matching `query` alone, best first;
   * - `fragments(query, text, n)`: what `Highlighter.getBestFragments` gives
   *   for `text`, scored against `query`, when asked for `n` fragments, or
   *   None when it throws;
   * - `searchFails(query, filter)`: `search(query, filter, n)` throws an
   *   IOException;
   * - `lookupFails(query)`: `search(query, 1)` throws an IOException;
   * - `readFails(d)`: reading the stored fields of `d` (`doc(id)`) throws an
   *   IOException.
   */
  datatype Engine = Engine(
    parses: (string, string) -> bool,
    matches: (Query, Query) -> seq<Doc>,
    lookup: Query -> seq<Doc>,
    fragments: (Query, string, int) -> Option<seq<string>>,
    searchFails: (Query, Query) -> bool,
    lookupFails: Query -> bool,
    readFails: Doc -> bool)

  /** `search(..., n).scoreDocs`: at most the `n` best of `hits`. */
  function Take<T>(hits: seq<T>, n: nat): (r: seq<T>)
    ensures |r| == Min(|hits|, n)
    ensures r == hits[..|r|]
  {
    if |hits| <= n then hits else hits[..n]
  }

  /**
   * Lucene's `Highlighter.getBestFragments(..., maxNumFragments)` raises a
   * requested count below one to one and returns at most that many fragments.
   */
  ghost predicate KeepsFragmentCount(fragments: (Query, string, int) -> Option<seq<string>>) {
    forall q, text, n :: fragments(q, text, n).Some? ==> |fragments(q, text, n).value| <= Max(1, n)
  }

  /** The single-clause query `checkForIndex`, `getDocument` and `getMetaFile` look a key up with. */
  function KeyQuery(field: string, value: string): Query {
    MustAll([TermQuery(Term(field, value))])
  }

  /** The `id` of the metadata document of the file at `path`. */
  function MetaId(path: string): (id: string)
    ensures EndsWith(id, ":meta") && StartsWith(id, path)
    ensures |id| == |path| + 5
  {
    path + ":meta"
  }

  /** Distinct paths never share a metadata id, so the lookup in `getMetaFile` names one file. */
  lemma MetaIdInjective(a: string, b: string)
    requires MetaId(a) == MetaId(b)
    ensures a == b
  {
    assert a == MetaId(a)[..|a|];
  }

  /** The pattern a BOOLEAN search uses: the term with a `*` on either side. */
  function WildcardPattern(term: string): (p: string)
    ensures |p| == |term| + 2 && p[0] == '*' && p[|p| - 1] == '*'
    ensures p[1..|p| - 1] == term
  {
    "*" + term + "*"
  }

  /**
   * The main query of `findName`, `findIn` and `find`: a BooleanQuery with
   * one MUST wildcard clause for BOOLEAN, the parser's query for STANDARD
   * (None when it throws ParseException), and None for any other type.
   */
  function BuildQuery(qtype: int, term: string, field: string, parses: (string, string) -> bool): (q: Option<Query>)
    ensures qtype == QUERY_BOOLEAN ==> q == Some(MustAll([WildcardQuery(Term(field, WildcardPattern(term)))]))
    ensures qtype == QUERY_STANDARD ==> (q.Some? <==> parses(field, term))
    ensures q.Some? && qtype != QUERY_BOOLEAN ==> qtype == QUERY_STANDARD && q.value == Parsed(field, term)
    ensures qtype != QUERY_BOOLEAN && qtype != QUERY_STANDARD ==> q == None
  {
    if qtype == QUERY_BOOLEAN then
      Some(MustAll([WildcardQuery(Term(field, WildcardPattern(term)))]))
    else if qtype == QUERY_STANDARD then
      if parses(field, term) then Some(Parsed(field, term)) else None
    else None
  }

  /**
   * The constraint filter: a BooleanQuery that gets one MUST term clause on
   * `constrainField` per constraint value, added in order.
   */
  method BuildFilter(constrainField: string, constrainValues: seq<string>) returns (filter: Query)
    ensures filter.MustAll? && |filter.clauses| == |constrainValues|
    ensures forall i :: 0 <= i < |constrainValues| ==>
      filter.clauses[i] == TermQuery(Term(constrainField, constrainValues[i]))
  {
    var clauses: seq<Query> := [];
    var i := 0;
    while i < |constrainValues|
      invariant 0 <= i <= |constrainValues| && |clauses| == i
      invariant forall j :: 0 <= j < i ==> clauses[j] == TermQuery(Term(constrainField, constrainValues[j]))
    {
      clauses := clauses + [TermQuery(Term(constrainField, constrainValues[i]))];
      i := i + 1;
    }
    filter := MustAll(clauses);
  }

  /**
   * Lucene's wildcard matching of one indexed term: `*` stands for any run of
   * characters and `?` for any one character.
   */
  predicate Glob(pattern: string, s: string)
    decreases |pattern| + |s|
  {
    if pattern == [] then s == []
    else if pattern[0] == '*' then Glob(pattern[1..], s) || (s != [] && Glob(pattern, s[1..]))
    else s != [] && (pattern[0] == '?' || pattern[0] == s[0]) && Glob(pattern[1..], s[1..])
  }

  predicate Literal(t: string) {
    '*' !in t && '?' !in t
  }

  lemma {:induction false} GlobStarAll(s: string)
    ensures Glob("*", s)
    decreases |s|
  {
    if s != [] {
      GlobStarAll(s[1..]);
    }
  }

  /** A literal followed by `*` matches exactly the terms it starts. */
  lemma {:induction false} GlobPrefix(t: string, s: string)
    requires Literal(t)
    ensures Glob(t + "*", s) <==> StartsWith(s, t)
    decreases |t|
  {
    if t == [] {
      assert t + "*" == "*";
      GlobStarAll(s);
    } else {
      assert (t + "*")[1..] == t[1..] + "*";
      if s != [] {
        GlobPrefix(t[1..], s[1..]);
        assert StartsWith(s, t) <==> s[0] == t[0] && StartsWith(s[1..], t[1..]) by {
          if StartsWith(s, t) {
            assert s[1..][..|t| - 1] == s[..|t|][1..];
          }
          if s[0] == t[0] && StartsWith(s[1..], t[1..]) {
            assert s[..|t|] == [s[0]] + s[1..][..|t| - 1];
          }
        }
      }
    }
  }

  /** A leading `*` lets the rest of the pattern match any suffix. */
  lemma {:induction false} GlobLeadingStar(p: string, s: string)
    ensures Glob("*" + p, s) <==> exists i :: 0 <= i <= |s| && Glob(p, s[i..])
    decreases |s|
  {
    assert ("*" + p)[1..] == p;
    if s == [] {
      assert s[0..] == s;
    } else {
      GlobLeadingStar(p, s[1..]);
      assert s[0..] == s;
      assert forall i :: 1 <= i <= |s| ==> s[1..][i - 1..] == s[i..];
      if exists i :: 0 <= i <= |s| && Glob(p, s[i..]) {
        var i :| 0 <= i <= |s| && Glob(p, s[i..]);
        if i > 0 {
          assert Glob(p, s[1..][i - 1..]);
        }
      }
    }
  }

  /**
   * What the BOOLEAN query means: for a term with no wildcard characters of
   * its own, `*term*` matches exactly the indexed terms that contain it.
   */
  lemma WildcardMeansContains(term: string, s: string)
    requires Literal(term)
    ensures Glob(WildcardPattern(term), s) <==> Contains(s, term)
  {
    assert WildcardPattern(term) == "*" + (term + "*");
    GlobLeadingStar(term + "*", s);
    forall i | 0 <= i <= |s| ensures Glob(term + "*", s[i..]) <==> StartsWith(s[i..], term) {
      GlobPrefix(term, s[i..]);
    }
  }
}
