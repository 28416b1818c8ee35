/**
 * IndexService: the crawl that hands files to `createIndex`, the builders
 * that fetch a file's pages from its extraction service, the queue of
 * results, and the consumer loop that writes them to the index and decides
 * when the service stops.
 *
 * The service's threads (the crawl thread, the consumer thread, the binder
 * callbacks) become separate step methods on one object, run one at a time.
 * The index writer, the staleness check and the remote services are the
 * `Host` oracle.
 */
module Indexing {
  import opened Common
  import opened FileTree
  import opened Registry
  import Query

  /** `maxTasks`: the crawl waits while more tasks than this are outstanding. */
  const MAX_TASKS: int := 30

  /** The service's own data directory, which the crawl never enters. */
  const OWN_DATA: string := "Android/data/ca.dracode.ais"

  /** `Indexable`: a queued result: the pages read (null when none were), the file's path, the service's name. */
  datatype Indexable = Indexable(tmpData: Option<seq<string>>, file: string, serviceName: Option<string>)

  /** A `RemoteBuilder` whose `bindService` succeeded and whose `onServiceConnected` has not run yet. */
  datatype Binding = Binding(file: string, serviceName: string)

  /** A call to the index writer: by path alone (`buildIndex(path, -1)`), or from extracted pages. */
  datatype Write = PathOnly(file: string) | FromPages(pages: seq<string>, file: string)

  /** What the crawl reports: a directory entered (its log line), an entry handed to `createIndex`. */
  datatype Event = Entered(path: string) | Checked(path: string)

  /**
   * How a crawl ends: it returned, it is waiting for the task count to
   * drop (the busy loop, where the sequential model stops), or an
   * IOException from `getCanonicalPath` ended it.
   */
  datatype Outcome = Completed | Blocked | Failed

  /**
   * What `bindService` does: returns true, returns false, or throws (a
   * SecurityException when the app lacks the permission protecting the
   * service, for one).
   */
  datatype BindResult = Bound | Refused | Threw

  /**
   * The collaborators the service calls and cannot see into:
   * - `staleness(id, lastModified)`: `FileIndexer.checkForIndex`, None when it throws;
   * - `binds(name)`: what `bindService` for the named service does;
   * - `extract(path)`: the pages `onServiceConnected` reads for a file, None
   *   when `loadFile` fails (a later failure keeps the pages read so far);
   * - `buildFails(pages, path)`: whether `buildIndex(tmpData, file)` throws.
   */
  datatype Host = Host(
    staleness: (string, int) -> Option<int>,
    binds: string -> BindResult,
    extract: string -> Option<seq<string>>,
    buildFails: (seq<string>, string) -> bool)

  /**
   * The service's state: the fields `tasks`, `mIsBound`, `doneCrawling`,
   * `canStop` and `pIndexes`, whether `indexer` has been created, the builders awaiting their callback, the
   * index writes and crawl events so far, whether the service stopped, and
   * how many counted tasks will never be returned (`leaked`).
   */
  datatype State = State(
    tasks: int,
    bound: int,
    doneCrawling: bool,
    canStop: bool,
    indexer: bool,
    queue: seq<Indexable>,
    builders: seq<Binding>,
    writes: seq<Write>,
    trace: seq<Event>,
    stopped: bool,
    leaked: nat)

  /**
   * The task count accounts for every task: each one is queued, awaiting
   * its builder's callback, or leaked; the bind count is the number of
   * builders awaiting their callback.
   */
  predicate Accounted(s: State) {
    s.tasks == |s.queue| + |s.builders| + s.leaked && s.bound == |s.builders|
  }

  // ----- createIndex and RemoteBuilder -----

  /** The `RemoteBuilder` constructor throws: a service was chosen and `bindService` threw. */
  predicate BuilderThrows(host: Host, serviceName: Option<string>) {
    serviceName.Some? && host.binds(serviceName.value) == Threw
  }

  /**
   * `new RemoteBuilder(file, serviceName)`: with no service the file is
   * queued at once with no pages; otherwise the builder binds to the
   * service and counts the binding. When `bindService` returns false
   * nothing is queued and nothing is counted, so the task `createIndex`
   * counts for it is never returned. When it throws, the exception leaves
   * the constructor before anything changed.
   */
  function Builder(s: State, host: Host, file: string, serviceName: Option<string>): State {
    match serviceName
    case None => s.(queue := s.queue + [Indexable(None, file, None)])
    case Some(name) =>
      match host.binds(name)
      case Bound => s.(builders := s.builders + [Binding(file, name)], bound := s.bound + 1)
      case Refused => s.(leaked := s.leaked + 1)
      case Threw => s
  }

  /**
   * `createIndex(content)`: choose the service for a file, ask the index
   * for the entry's staleness, and start a builder when the index is out of
   * date (1) or missing (-1). The task is counted once the builder's
   * constructor returns; one that throws is caught and counts nothing.
   * Before `onCreate` has created the indexer, the staleness check throws a
   * NullPointerException, which the outer catch swallows: nothing changes.
   */
  function CreateIndexSpec(s: State, host: Host, services: seq<Service>, content: Entry): State {
    var serviceName := if content.isFile then ChosenName(content.name, services) else None;
    if !s.indexer then s
    else match host.staleness(Query.MetaId(content.path), content.lastModified)
    case None => s
    case Some(state) =>
      if state == 1 || state == -1 then
        if BuilderThrows(host, serviceName) then s
        else Builder(s, host, content.path, serviceName).(tasks := s.tasks + 1)
      else s
  }

  /**
   * The dispatch of `createIndex`: without an indexer nothing changes. With
   * one, state 0, any state other than 1 and -1, or a failing check change
   * nothing; on states 1 and -1 a builder whose
   * bind throws changes nothing either, and any other counts exactly one
   * more task and starts the builder for the service chosen for the file.
   */
  lemma CreateIndexDispatch(s: State, host: Host, services: seq<Service>, content: Entry)
    ensures var state := host.staleness(Query.MetaId(content.path), content.lastModified);
      var r := CreateIndexSpec(s, host, services, content);
      && (!s.indexer ==> r == s)
      && (state.None? || (state.value != 1 && state.value != -1) ==> r == s)
      && (s.indexer && (state == Some(1) || state == Some(-1)) ==>
          (content.isFile && BuilderThrows(host, ChosenName(content.name, services)) <==> r == s))
      && (s.indexer && (state == Some(1) || state == Some(-1)) ==>
          !(content.isFile && BuilderThrows(host, ChosenName(content.name, services))) ==>
          && r.tasks == s.tasks + 1
          && r.trace == s.trace && r.writes == s.writes
          && (content.isFile ==> r == Builder(s, host, content.path, ChosenName(content.name, services)).(tasks := s.tasks + 1))
          && (!content.isFile ==> r.queue == s.queue + [Indexable(None, content.path, None)] && r.builders == s.builders))
  {
  }

  /** Every task `createIndex` counts is queued, awaiting a callback, or leaked. */
  lemma CreateIndexKeepsAccounts(s: State, host: Host, services: seq<Service>, content: Entry)
    requires Accounted(s)
    ensures Accounted(CreateIndexSpec(s, host, services, content))
  {
  }

  /** `createIndex` reports nothing to the crawl trace. */
  lemma CreateIndexKeepsTrace(s: State, host: Host, services: seq<Service>, content: Entry)
    ensures CreateIndexSpec(s, host, services, content).trace == s.trace
  {
  }

  // ----- the crawl -----

  /** The result of crawling from some point on: the state reached and how the crawl ended. */
  datatype Crawled = Crawled(s: State, outcome: Outcome)

  /** The first loop of `crawl` partway: the state reached, and the outcome when it returned early. */
  datatype Pass = Pass(s: State, stop: Option<Outcome>)

  /**
   * `crawl(directory)`: log the directory, hand every readable entry to
   * `createIndex`, then crawl each readable subdirectory whose path is its
   * canonical path. An entry inside the service's own data directory ends
   * the crawl of this directory at once (its caller goes on).
   */
  function CrawlDir(s: State, host: Host, services: seq<Service>, dir: Entry): Crawled
    decreases dir, 2
  {
    var s1 := s.(trace := s.trace + [Entered(dir.path)]);
    if !dir.listable then Crawled(s1, Completed)
    else
      var p := CheckEntries(s1, host, services, dir, 0);
      match p.stop
      case Some(o) => Crawled(p.s, o)
      case None => CrawlSubdirs(p.s, host, services, dir, 0)
  }

  /** The first loop of `crawl` from entry `i` on. */
  function CheckEntries(s: State, host: Host, services: seq<Service>, dir: Entry, i: nat): Pass
    requires dir.listable && i <= |dir.children|
    decreases |dir.children| - i
  {
    if i == |dir.children| then Pass(s, None)
    else
      var c := dir.children[i];
      if Contains(c.path, OWN_DATA) then Pass(s, Some(Completed))
      else if s.tasks > MAX_TASKS then Pass(s, Some(Blocked))
      else if c.canRead then
        CheckEntries(CreateIndexSpec(s.(trace := s.trace + [Checked(c.path)]), host, services, c), host, services, dir, i + 1)
      else CheckEntries(s, host, services, dir, i + 1)
  }

  /** A directory `crawl` descends into: readable, a directory, and its own canonical path. */
  predicate Followable(c: Entry) {
    c.canRead && c.isDirectory && c.canonical == Some(c.path)
  }

  /** The second loop of `crawl` from entry `i` on; a subdirectory that does not complete ends it. */
  function CrawlSubdirs(s: State, host: Host, services: seq<Service>, dir: Entry, i: nat): Crawled
    requires dir.listable && i <= |dir.children|
    decreases dir, 1, |dir.children| - i
  {
    if i == |dir.children| then Crawled(s, Completed)
    else
      var c := dir.children[i];
      assert c in dir.children;
      if c.canRead && c.isDirectory && c.canonical.None? then Crawled(s, Failed)
      else if Followable(c) then
        var r := CrawlDir(s, host, services, c);
        if r.outcome == Completed then CrawlSubdirs(r.s, host, services, dir, i + 1) else r
      else CrawlSubdirs(s, host, services, dir, i + 1)
  }

  /** The crawl only ever adds to the trace. */
  lemma {:induction false} CrawlExtendsTrace(s: State, host: Host, services: seq<Service>, dir: Entry)
    ensures var t := CrawlDir(s, host, services, dir).s.trace;
      |s.trace| < |t| && t[..|s.trace| + 1] == s.trace + [Entered(dir.path)]
    decreases dir, 2
  {
    var s1 := s.(trace := s.trace + [Entered(dir.path)]);
    if dir.listable {
      var k := CheckEntriesTrace(s1, host, services, dir, 0);
      var p := CheckEntries(s1, host, services, dir, 0);
      if p.stop.None? {
        SubdirsExtendTrace(p.s, host, services, dir, 0);
        var t := CrawlSubdirs(p.s, host, services, dir, 0).s.trace;
        assert t[..|s.trace| + 1] == t[..|p.s.trace|][..|s.trace| + 1];
      }
    }
  }

  lemma {:induction false} SubdirsExtendTrace(s: State, host: Host, services: seq<Service>, dir: Entry, i: nat)
    requires dir.listable && i <= |dir.children|
    ensures var t := CrawlSubdirs(s, host, services, dir, i).s.trace;
      |s.trace| <= |t| && t[..|s.trace|] == s.trace
    decreases dir, 1, |dir.children| - i
  {
    if i < |dir.children| {
      var c := dir.children[i];
      assert c in dir.children;
      if Followable(c) {
        CrawlExtendsTrace(s, host, services, c);
        var r := CrawlDir(s, host, services, c);
        if r.outcome == Completed {
          SubdirsExtendTrace(r.s, host, services, dir, i + 1);
          var t := CrawlSubdirs(r.s, host, services, dir, i + 1).s.trace;
          assert t[..|s.trace|] == t[..|r.s.trace|][..|s.trace|];
        }
      } else if !(c.canRead && c.isDirectory && c.canonical.None?) {
        SubdirsExtendTrace(s, host, services, dir, i + 1);
      }
    }
  }

  /** The `Checked` events of the readable entries among `es[lo..hi]`, in order. */
  function Checks(es: seq<Entry>, lo: nat, hi: nat): seq<Event>
    requires lo <= hi <= |es|
    decreases hi - lo
  {
    if lo == hi then [] else (if es[lo].canRead then [Checked(es[lo].path)] else []) + Checks(es, lo + 1, hi)
  }

  /**
   * The first loop adds the `Checked` events of the readable entries it
   * passes, and nothing else; when it runs to the end it has passed them all.
   * It passes no entry inside the service's own data directory: when it
   * returns early it stops at entry `k`, which is such an entry exactly
   * when the crawl of the directory completes there, so every entry from
   * the first such one on is abandoned.
   */
  lemma {:induction false} CheckEntriesTrace(s: State, host: Host, services: seq<Service>, dir: Entry, i: nat)
    returns (k: nat)
    requires dir.listable && i <= |dir.children|
    ensures i <= k <= |dir.children|
    ensures CheckEntries(s, host, services, dir, i).s.trace == s.trace + Checks(dir.children, i, k)
    ensures CheckEntries(s, host, services, dir, i).stop.None? ==> k == |dir.children|
    ensures forall j :: i <= j < k ==> !Contains(dir.children[j].path, OWN_DATA)
    ensures CheckEntries(s, host, services, dir, i).stop.Some? ==>
      k < |dir.children| &&
      (CheckEntries(s, host, services, dir, i).stop == Some(Completed) <==> Contains(dir.children[k].path, OWN_DATA))
    decreases |dir.children| - i
  {
    var n := |dir.children|;
    if i == n {
      k := n;
    } else {
      var c := dir.children[i];
      if Contains(c.path, OWN_DATA) || s.tasks > MAX_TASKS {
        k := i;
      } else {
        if c.canRead {
          var s0 := s.(trace := s.trace + [Checked(c.path)]);
          CreateIndexKeepsTrace(s0, host, services, c);
          k := CheckEntriesTrace(CreateIndexSpec(s0, host, services, c), host, services, dir, i + 1);
          assert s.trace + Checks(dir.children, i, k) == s0.trace + Checks(dir.children, i + 1, k);
        } else {
          k := CheckEntriesTrace(s, host, services, dir, i + 1);
          assert Checks(dir.children, i, k) == Checks(dir.children, i + 1, k);
        }
      }
    }
  }

  /**
   * Files before subdirectories: after entering `dir` the crawl hands the
   * readable entries to `createIndex` in listing order, and it crawls a
   * subdirectory only once it has handed on every entry. An entry inside
   * the service's own data directory ends the crawl of `dir`: neither it
   * nor any later entry is handed on, and no subdirectory is crawled.
   */
  lemma CrawlFilesFirst(s: State, host: Host, services: seq<Service>, dir: Entry)
    requires dir.listable
    ensures var t := CrawlDir(s, host, services, dir).s.trace;
      exists k :: 0 <= k <= |dir.children| &&
        var checks := Checks(dir.children, 0, k);
        && |s.trace| + 1 + |checks| <= |t|
        && t[|s.trace|..|s.trace| + 1 + |checks|] == [Entered(dir.path)] + checks
        && (k < |dir.children| ==> |t| == |s.trace| + 1 + |checks|)
        && (forall j :: 0 <= j < |dir.children| && Contains(dir.children[j].path, OWN_DATA) ==> k <= j)
  {
    var s1 := s.(trace := s.trace + [Entered(dir.path)]);
    var k := CheckEntriesTrace(s1, host, services, dir, 0);
    var p := CheckEntries(s1, host, services, dir, 0);
    var t := CrawlDir(s, host, services, dir).s.trace;
    if p.stop.None? {
      SubdirsExtendTrace(p.s, host, services, dir, 0);
      assert t[..|p.s.trace|] == p.s.trace;
    }
    assert t[|s.trace|..|p.s.trace|] == p.s.trace[|s.trace|..];
  }

  /** No event of the crawl of `dir` after its first names a path inside the service's own data. */
  lemma {:induction false} CrawlAvoidsOwnData(s: State, host: Host, services: seq<Service>, dir: Entry)
    ensures var t := CrawlDir(s, host, services, dir).s.trace;
      forall k :: |s.trace| < k < |t| ==> !Contains(t[k].path, OWN_DATA)
    decreases dir, 2
  {
    var s1 := s.(trace := s.trace + [Entered(dir.path)]);
    if dir.listable {
      CheckEntriesAvoid(s1, host, services, dir, 0);
      CheckedAvoidOwnData(s1, host, services, dir, 0);
      var p := CheckEntries(s1, host, services, dir, 0);
      if p.stop.None? {
        SubdirsAvoidOwnData(p.s, host, services, dir, 0);
        SubdirsExtendTrace(p.s, host, services, dir, 0);
        var t := CrawlSubdirs(p.s, host, services, dir, 0).s.trace;
        forall j | |s.trace| < j < |p.s.trace| ensures !Contains(t[j].path, OWN_DATA) {
          assert t[j] == t[..|p.s.trace|][j];
        }
      }
    }
  }

  /** The events the first loop adds name entries outside the own data. */
  lemma {:induction false} CheckEntriesAvoid(s: State, host: Host, services: seq<Service>, dir: Entry, i: nat)
    requires dir.listable && i <= |dir.children|
    ensures var t := CheckEntries(s, host, services, dir, i).s.trace;
      |s.trace| <= |t| && forall k :: |s.trace| <= k < |t| ==> !Contains(t[k].path, OWN_DATA)
    decreases |dir.children| - i
  {
    if i < |dir.children| {
      var c := dir.children[i];
      if !Contains(c.path, OWN_DATA) && s.tasks <= MAX_TASKS {
        if c.canRead {
          var s0 := s.(trace := s.trace + [Checked(c.path)]);
          CreateIndexKeepsTrace(s0, host, services, c);
          CheckEntriesAvoid(CreateIndexSpec(s0, host, services, c), host, services, dir, i + 1);
          var t := CheckEntries(s, host, services, dir, i).s.trace;
          assert t[|s.trace|] == Checked(c.path) by {
            var k := CheckEntriesTrace(CreateIndexSpec(s0, host, services, c), host, services, dir, i + 1);
            assert t[..|s0.trace|] == s0.trace;
          }
        } else {
          CheckEntriesAvoid(s, host, services, dir, i + 1);
        }
      }
    }
  }

  /** When the first loop runs to the end, no entry of the directory lies inside the own data. */
  lemma {:induction false} CheckedAvoidOwnData(s: State, host: Host, services: seq<Service>, dir: Entry, i: nat)
    requires dir.listable && i <= |dir.children|
    ensures CheckEntries(s, host, services, dir, i).stop.None? ==>
      forall j :: i <= j < |dir.children| ==> !Contains(dir.children[j].path, OWN_DATA)
    decreases |dir.children| - i
  {
    if i < |dir.children| {
      var c := dir.children[i];
      if !Contains(c.path, OWN_DATA) && s.tasks <= MAX_TASKS {
        var s' := if c.canRead then CreateIndexSpec(s.(trace := s.trace + [Checked(c.path)]), host, services, c) else s;
        CheckedAvoidOwnData(s', host, services, dir, i + 1);
      }
    }
  }

  lemma {:induction false} SubdirsAvoidOwnData(s: State, host: Host, services: seq<Service>, dir: Entry, i: nat)
    requires dir.listable && i <= |dir.children|
    requires forall j :: i <= j < |dir.children| ==> !Contains(dir.children[j].path, OWN_DATA)
    ensures var t := CrawlSubdirs(s, host, services, dir, i).s.trace;
      forall k :: |s.trace| <= k < |t| ==> !Contains(t[k].path, OWN_DATA)
    decreases dir, 1, |dir.children| - i
  {
    if i < |dir.children| {
      var c := dir.children[i];
      assert c in dir.children;
      if Followable(c) {
        CrawlAvoidsOwnData(s, host, services, c);
        CrawlExtendsTrace(s, host, services, c);
        var r := CrawlDir(s, host, services, c);
        if r.outcome == Completed {
          SubdirsAvoidOwnData(r.s, host, services, dir, i + 1);
          SubdirsExtendTrace(r.s, host, services, dir, i + 1);
          var t := CrawlSubdirs(r.s, host, services, dir, i + 1).s.trace;
          forall k | |s.trace| <= k < |r.s.trace| ensures !Contains(t[k].path, OWN_DATA) {
            assert t[k] == r.s.trace[k];
          }
        }
      } else if !(c.canRead && c.isDirectory && c.canonical.None?) {
        SubdirsAvoidOwnData(s, host, services, dir, i + 1);
        assert var t := CrawlSubdirs(s, host, services, dir, i + 1).s.trace;
          forall k :: |s.trace| <= k < |t| ==> !Contains(t[k].path, OWN_DATA);
        assert CrawlSubdirs(s, host, services, dir, i).s.trace == CrawlSubdirs(s, host, services, dir, i + 1).s.trace;
      }
    }
  }

  /** Events of the readable entries are all `Checked` events. */
  lemma {:induction false} ChecksOnlyChecked(es: seq<Entry>, lo: nat, hi: nat)
    requires lo <= hi <= |es|
    ensures forall j :: 0 <= j < |Checks(es, lo, hi)| ==> Checks(es, lo, hi)[j].Checked?
    decreases hi - lo
  {
    if lo < hi {
      ChecksOnlyChecked(es, lo + 1, hi);
    }
  }

  // ----- admission and accounting over a whole crawl -----

  /**
   * Admission: the crawl hands an entry to `createIndex` only while at most
   * `MAX_TASKS` tasks are outstanding, so from a count of at most `b` (at
   * least `MAX_TASKS + 1`) it never passes `b`; it never lowers the count,
   * and it keeps every task accounted for.
   */
  lemma {:induction false} CrawlBounds(s: State, host: Host, services: seq<Service>, dir: Entry, b: int)
    requires MAX_TASKS + 1 <= b && s.tasks <= b
    ensures var r := CrawlDir(s, host, services, dir).s;
      s.tasks <= r.tasks <= b && (Accounted(s) ==> Accounted(r))
    decreases dir, 2
  {
    var s1 := s.(trace := s.trace + [Entered(dir.path)]);
    if dir.listable {
      CheckEntriesBounds(s1, host, services, dir, 0, b);
      var p := CheckEntries(s1, host, services, dir, 0);
      if p.stop.None? {
        SubdirsBounds(p.s, host, services, dir, 0, b);
      }
    }
  }

  lemma {:induction false} CheckEntriesBounds(s: State, host: Host, services: seq<Service>, dir: Entry, i: nat, b: int)
    requires dir.listable && i <= |dir.children|
    requires MAX_TASKS + 1 <= b && s.tasks <= b
    ensures var r := CheckEntries(s, host, services, dir, i).s;
      s.tasks <= r.tasks <= b && (Accounted(s) ==> Accounted(r))
    decreases |dir.children| - i
  {
    if i < |dir.children| {
      var c := dir.children[i];
      if !Contains(c.path, OWN_DATA) && s.tasks <= MAX_TASKS {
        if c.canRead {
          var s0 := s.(trace := s.trace + [Checked(c.path)]);
          if Accounted(s) {
            CreateIndexKeepsAccounts(s0, host, services, c);
          }
          CheckEntriesBounds(CreateIndexSpec(s0, host, services, c), host, services, dir, i + 1, b);
        } else {
          CheckEntriesBounds(s, host, services, dir, i + 1, b);
        }
      }
    }
  }

  lemma {:induction false} SubdirsBounds(s: State, host: Host, services: seq<Service>, dir: Entry, i: nat, b: int)
    requires dir.listable && i <= |dir.children|
    requires MAX_TASKS + 1 <= b && s.tasks <= b
    ensures var r := CrawlSubdirs(s, host, services, dir, i).s;
      s.tasks <= r.tasks <= b && (Accounted(s) ==> Accounted(r))
    decreases dir, 1, |dir.children| - i
  {
    if i < |dir.children| {
      var c := dir.children[i];
      assert c in dir.children;
      if Followable(c) {
        CrawlBounds(s, host, services, c, b);
        var r := CrawlDir(s, host, services, c);
        if r.outcome == Completed {
          SubdirsBounds(r.s, host, services, dir, i + 1, b);
        }
      } else if !(c.canRead && c.isDirectory && c.canonical.None?) {
        SubdirsBounds(s, host, services, dir, i + 1, b);
      }
    }
  }

  /** After a crawl the task count is at most one past `MAX_TASKS`, or where it started if that was higher. */
  lemma CrawlAdmission(s: State, host: Host, services: seq<Service>, dir: Entry)
    ensures var r := CrawlDir(s, host, services, dir).s;
      s.tasks <= r.tasks <= Max(s.tasks, MAX_TASKS + 1)
  {
    CrawlBounds(s, host, services, dir, Max(s.tasks, MAX_TASKS + 1));
  }

  // ----- where the crawl descends -----

  /**
   * `d` lies below `dir` along followable directories: it is a followable
   * entry of `dir`, or lies so below one.
   */
  ghost predicate Descends(dir: Entry, d: Entry)
    decreases dir
  {
    dir.listable &&
    exists j :: 0 <= j < |dir.children| && Followable(dir.children[j]) &&
      (dir.children[j] == d || Descends(dir.children[j], d))
  }

  /** Some directory below `dir` along followable directories has the path `p`. */
  ghost predicate Below(dir: Entry, p: string) {
    exists d :: Descends(dir, d) && d.path == p
  }

  /**
   * The crawl of `dir` enters, besides `dir` itself, only directories
   * reached from it through readable directories that are their own
   * canonical path.
   */
  lemma {:induction false} CrawlEntersFollowable(s: State, host: Host, services: seq<Service>, dir: Entry)
    ensures var t := CrawlDir(s, host, services, dir).s.trace;
      forall k :: |s.trace| < k < |t| && t[k].Entered? ==> Below(dir, t[k].path)
    decreases dir, 2
  {
    var s1 := s.(trace := s.trace + [Entered(dir.path)]);
    if dir.listable {
      var k := CheckEntriesTrace(s1, host, services, dir, 0);
      var p := CheckEntries(s1, host, services, dir, 0);
      var checks := Checks(dir.children, 0, k);
      ChecksOnlyChecked(dir.children, 0, k);
      if p.stop.None? {
        SubdirsEntersFollowable(p.s, host, services, dir, 0);
        SubdirsExtendTrace(p.s, host, services, dir, 0);
        var t := CrawlSubdirs(p.s, host, services, dir, 0).s.trace;
        forall j | |s.trace| < j < |p.s.trace| ensures t[j].Checked? {
          assert t[j] == p.s.trace[j] == checks[j - |s1.trace|];
        }
      } else {
        forall j | |s.trace| < j < |p.s.trace| ensures p.s.trace[j].Checked? {
          assert p.s.trace[j] == checks[j - |s1.trace|];
        }
      }
    }
  }

  lemma {:induction false} SubdirsEntersFollowable(s: State, host: Host, services: seq<Service>, dir: Entry, i: nat)
    requires dir.listable && i <= |dir.children|
    ensures var t := CrawlSubdirs(s, host, services, dir, i).s.trace;
      forall k :: |s.trace| <= k < |t| && t[k].Entered? ==> Below(dir, t[k].path)
    decreases dir, 1, |dir.children| - i
  {
    if i < |dir.children| {
      var c := dir.children[i];
      assert c in dir.children;
      if Followable(c) {
        CrawlEntersFollowable(s, host, services, c);
        CrawlExtendsTrace(s, host, services, c);
        var r := CrawlDir(s, host, services, c);
        forall k | |s.trace| <= k < |r.s.trace| && r.s.trace[k].Entered?
          ensures Below(dir, r.s.trace[k].path)
        {
          if k == |s.trace| {
            assert r.s.trace[k] == r.s.trace[..|s.trace| + 1][k];
            assert Descends(dir, c) by { assert dir.children[i] == c; }
            assert Below(dir, r.s.trace[k].path);
          } else {
            var d :| Descends(c, d) && d.path == r.s.trace[k].path;
            assert Descends(dir, d) by { assert dir.children[i] == c; }
            assert Below(dir, r.s.trace[k].path);
          }
        }
        if r.outcome == Completed {
          SubdirsEntersFollowable(r.s, host, services, dir, i + 1);
          SubdirsExtendTrace(r.s, host, services, dir, i + 1);
          var t := CrawlSubdirs(r.s, host, services, dir, i + 1).s.trace;
          forall k | |s.trace| <= k < |r.s.trace| ensures t[k] == r.s.trace[k] {
            assert t[k] == t[..|r.s.trace|][k];
          }
        }
      } else if !(c.canRead && c.isDirectory && c.canonical.None?) {
        SubdirsEntersFollowable(s, host, services, dir, i + 1);
        assert var t := CrawlSubdirs(s, host, services, dir, i + 1).s.trace;
          forall k :: |s.trace| <= k < |t| && t[k].Entered? ==> Below(dir, t[k].path);
        assert CrawlSubdirs(s, host, services, dir, i).s.trace == CrawlSubdirs(s, host, services, dir, i + 1).s.trace;
      }
    }
  }

  // ----- the binder callback and the consumer -----

  /**
   * `onServiceConnected` for the `k`th builder awaiting its callback: queue
   * the pages read from the service (None when `loadFile` failed), then
   * `doUnbindService`, which lowers the bind count only while it is positive.
   */
  function Connect(s: State, host: Host, k: nat): State
    requires k < |s.builders|
  {
    var b := s.builders[k];
    var s1 := s.(queue := s.queue + [Indexable(host.extract(b.file), b.file, Some(b.serviceName))],
                 builders := s.builders[..k] + s.builders[k + 1..]);
    if s.bound > 0 then s1.(bound := s.bound - 1) else s1
  }

  /** The callback moves a task from awaiting its builder to the queue; the count is unchanged. */
  lemma ConnectKeepsAccounts(s: State, host: Host, k: nat)
    requires Accounted(s) && k < |s.builders|
    ensures var r := Connect(s, host, k);
      Accounted(r) && r.tasks == s.tasks && |r.queue| == |s.queue| + 1 && r.queue[..|s.queue|] == s.queue
  {
    assert |s.builders[..k] + s.builders[k + 1..]| == |s.builders| - 1;
  }

  /**
   * One pass of the consumer loop before its shutdown test: poll the queue;
   * index an item without pages by path, and an item with pages from its
   * pages. The count drops unless building from pages throws, in which
   * case that task is never returned.
   */
  function Consume(s: State, host: Host): State {
    if s.queue == [] then s
    else
      var item := s.queue[0];
      var s1 := s.(queue := s.queue[1..]);
      if item.tmpData.None? || item.tmpData.value == [] then
        s1.(writes := s.writes + [PathOnly(item.file)], tasks := s.tasks - 1)
      else if host.buildFails(item.tmpData.value, item.file) then s1.(leaked := s.leaked + 1)
      else s1.(writes := s.writes + [FromPages(item.tmpData.value, item.file)], tasks := s.tasks - 1)
  }

  /** The consumer's shutdown test. */
  predicate ShouldStop(s: State) {
    s.doneCrawling && s.bound == 0 && s.queue == [] && s.canStop
  }

  /** A whole pass of the consumer loop: consume, then close the index and stop when the test holds. */
  function ConsumerStepSpec(s: State, host: Host): State {
    var s1 := Consume(s, host);
    if ShouldStop(s1) then s1.(doneCrawling := false, stopped := true) else s1
  }

  /**
   * The consumer takes the queue's head first: an item without pages is
   * indexed by path and returns its task; an item with pages is indexed
   * from them and returns its task exactly when building does not throw.
   */
  lemma ConsumeStep(s: State, host: Host)
    ensures s.queue == [] ==> Consume(s, host) == s
    ensures s.queue != [] ==>
      var item := s.queue[0];
      var r := Consume(s, host);
      && r.queue == s.queue[1..] && r.builders == s.builders && r.bound == s.bound
      && (item.tmpData.None? || item.tmpData.value == [] ==>
            r.writes == s.writes + [PathOnly(item.file)] && r.tasks == s.tasks - 1)
      && (item.tmpData.Some? && item.tmpData.value != [] ==>
            && (r.tasks == s.tasks - 1 <==> !host.buildFails(item.tmpData.value, item.file))
            && r.writes == s.writes + (if host.buildFails(item.tmpData.value, item.file) then []
                                       else [FromPages(item.tmpData.value, item.file)]))
  {
  }

  /** A pass of the consumer keeps every task accounted for. */
  lemma ConsumerKeepsAccounts(s: State, host: Host)
    requires Accounted(s)
    ensures Accounted(ConsumerStepSpec(s, host))
  {
  }

  /**
   * The service stops in a pass exactly when the shutdown test holds after
   * consuming; it then resets `doneCrawling`, and every task it counted was
   * written or leaked: none is queued or awaiting a callback.
   */
  lemma ShutdownWhenDrained(s: State, host: Host)
    requires Accounted(s) && !s.stopped
    ensures var r := ConsumerStepSpec(s, host);
      && (r.stopped <==> ShouldStop(Consume(s, host)))
      && (r.stopped ==> !r.doneCrawling && r.queue == [] && r.builders == [] && r.tasks == r.leaked && r.canStop)
  {
  }

  // ----- a failed bind (as written, and corrected) -----

  /**
   * As written: when `bindService` returns false the task is counted but
   * nothing is queued and nothing awaits a callback, so no later step
   * returns it.
   */
  lemma BindFailureLeaks(s: State, host: Host, file: string, name: string)
    requires host.binds(name) == Refused
    ensures var r := Builder(s, host, file, Some(name)).(tasks := s.tasks + 1);
      && r.tasks == s.tasks + 1 && r.leaked == s.leaked + 1
      && r.queue == s.queue && r.builders == s.builders && r.bound == s.bound
  {
  }

  /**
   * Once more than `MAX_TASKS` tasks have leaked, every crawl waits at the
   * first entry it would hand on and never indexes anything again.
   */
  lemma LeaksBlockCrawl(s: State, host: Host, services: seq<Service>, dir: Entry)
    requires Accounted(s) && s.leaked > MAX_TASKS
    requires dir.listable && |dir.children| > 0 && !Contains(dir.children[0].path, OWN_DATA)
    ensures CrawlDir(s, host, services, dir) == Crawled(s.(trace := s.trace + [Entered(dir.path)]), Blocked)
  {
  }

  /**
   * A builder that queues its file for indexing by path when the bind does
   * not succeed (returns false or throws), as it does with no service.
   */
  function RecoveringBuilder(s: State, host: Host, file: string, serviceName: Option<string>): State {
    match serviceName
    case None => s.(queue := s.queue + [Indexable(None, file, None)])
    case Some(name) =>
      if host.binds(name) == Bound then s.(builders := s.builders + [Binding(file, name)], bound := s.bound + 1)
      else s.(queue := s.queue + [Indexable(None, file, Some(name))])
  }

  /**
   * With the corrected builder every counted task is queued or awaits its
   * callback: nothing leaks, and the queued item is indexed by path.
   */
  lemma RecoveringBuilderLeaksNothing(s: State, host: Host, file: string, serviceName: Option<string>)
    requires Accounted(s)
    ensures var r := RecoveringBuilder(s, host, file, serviceName).(tasks := s.tasks + 1);
      && Accounted(r) && r.leaked == s.leaked
      && (serviceName.None? || host.binds(serviceName.value) != Bound ==>
            && r.queue == s.queue + [Indexable(None, file, serviceName)]
            && (s.queue == [] ==> Consume(r, host).tasks == r.tasks - 1))
  {
  }

  // ----- the service object -----

  /**
   * The running service: its fields, plus the index writes and crawl
   * events so far and, as ghost state, the count of tasks that will never
   * be returned.
   */
  class IndexService {
    const host: Host
    var tasks: int
    var mIsBound: int
    var doneCrawling: bool
    var canStop: bool
    /** Whether `indexer` is non-null: `onCreate` creates it only when it starts. */
    var indexer: bool
    var crawl: bool
    var services: seq<Service>
    var pIndexes: seq<Indexable>
    var builders: seq<Binding>
    var writes: seq<Write>
    var trace: seq<Event>
    var stopped: bool
    ghost var leaked: nat

    ghost function Snapshot(): State
      reads this
    {
      State(tasks, mIsBound, doneCrawling, canStop, indexer, pIndexes, builders, writes, trace, stopped, leaked)
    }

    ghost predicate Valid()
      reads this
    {
      Accounted(Snapshot())
    }

    /** The field initialisers: no tasks, nothing bound, nothing queued. */
    constructor (host: Host)
      ensures this.host == host && Valid()
      ensures Snapshot() == State(0, 0, false, false, false, [], [], [], [], false, 0)
      ensures services == [] && !crawl
    {
      this.host := host;
      tasks := 0;
      mIsBound := 0;
      doneCrawling := false;
      canStop := false;
      indexer := false;
      crawl := false;
      services := [];
      pIndexes := [];
      builders := [];
      writes := [];
      trace := [];
      stopped := false;
      leaked := 0;
    }

    /**
     * `onCreate`: with storage mounted read-write, scan `Android/data` for
     * service manifests, then start with an empty queue and `doneCrawling`
     * set (and the consumer running). A scan that meets an unlistable
     * directory throws out of `onCreate`.
     */
    method OnCreate(writable: bool, dataDir: Entry) returns (started: bool)
      modifies this
      ensures started <==> writable && Scan(dataDir, []).Some?
      ensures services == (if started then Scan(dataDir, []).value else [])
      ensures Snapshot() == if started then old(Snapshot()).(indexer := true, queue := [], doneCrawling := true) else old(Snapshot())
      ensures crawl == old(crawl)
    {
      services := [];
      if !writable {
        return false;
      }
      var found := GetServices(dataDir, []);
      if found.None? {
        return false;
      }
      services := found.value;
      indexer := true;
      pIndexes := [];
      doneCrawling := true;
      started := true;
    }

    /** `onStartCommand`: record the `crawl` extra and set the stop flags for that mode. */
    method OnStartCommand(crawlExtra: bool)
      modifies this
      ensures crawl == crawlExtra && services == old(services)
      ensures Snapshot() == old(Snapshot()).(canStop := crawlExtra, doneCrawling := !crawlExtra)
    {
      crawl := crawlExtra;
      if crawl {
        canStop := true;
        doneCrawling := false;
      } else {
        doneCrawling := true;
        canStop := false;
      }
    }

    /** `stopWhenReady`: allow the consumer to stop once everything queued is done. */
    method StopWhenReady()
      modifies this
      ensures Snapshot() == old(Snapshot()).(canStop := true)
      ensures services == old(services) && crawl == old(crawl)
    {
      canStop := true;
    }

    /** The `RemoteBuilder` constructor with `doBindService`; `thrown` is the exception it lets out. */
    method RemoteBuilder(file: string, serviceName: Option<string>) returns (thrown: bool)
      modifies this
      ensures thrown <==> BuilderThrows(host, serviceName)
      ensures Snapshot() == Builder(old(Snapshot()), host, file, serviceName)
      ensures services == old(services) && crawl == old(crawl)
    {
      thrown := false;
      if serviceName.None? {
        pIndexes := pIndexes + [Indexable(None, file, None)];
        return;
      }
      var bind := host.binds(serviceName.value);
      if bind == Threw {
        thrown := true;
      } else if bind == Bound {
        builders := builders + [Binding(file, serviceName.value)];
        mIsBound := mIsBound + 1;
      } else {
        leaked := leaked + 1;
      }
    }

    /** `createIndex(content)`. */
    method CreateIndex(content: Entry)
      modifies this
      ensures Snapshot() == CreateIndexSpec(old(Snapshot()), host, services, content)
      ensures services == old(services) && crawl == old(crawl)
    {
      var serviceName: Option<string> := None;
      if content.isFile {
        serviceName := ServiceFor(content.name, services);
      }
      if !indexer {
        return;
      }
      var state := host.staleness(Query.MetaId(content.path), content.lastModified);
      if state.None? {
        return;
      }
      if state.value == 1 || state.value == -1 {
        var thrown := RemoteBuilder(content.path, serviceName);
        if !thrown {
          tasks := tasks + 1;
        }
      }
    }

    /** `crawl(directory)`; `Blocked` stands for the wait on the task count. */
    method Crawl(directory: Entry) returns (outcome: Outcome)
      modifies this
      ensures Crawled(Snapshot(), outcome) == CrawlDir(old(Snapshot()), host, services, directory)
      ensures services == old(services) && crawl == old(crawl)
      decreases directory
    {
      trace := trace + [Entered(directory.path)];
      if !directory.listable {
        return Completed;
      }
      var contents := directory.children;
      ghost var first := CheckEntries(Snapshot(), host, services, directory, 0);
      var i := 0;
      while i < |contents|
        invariant 0 <= i <= |contents|
        invariant CheckEntries(Snapshot(), host, services, directory, i) == first
        invariant services == old(services) && crawl == old(crawl)
      {
        var content := contents[i];
        if Contains(content.path, OWN_DATA) {
          return Completed;
        }
        if tasks > MAX_TASKS {
          return Blocked;
        }
        if content.canRead {
          trace := trace + [Checked(content.path)];
          CreateIndex(content);
        }
        i := i + 1;
      }
      ghost var rest := CrawlSubdirs(Snapshot(), host, services, directory, 0);
      i := 0;
      while i < |contents|
        invariant 0 <= i <= |contents|
        invariant CrawlSubdirs(Snapshot(), host, services, directory, i) == rest
        invariant services == old(services) && crawl == old(crawl)
      {
        var content := contents[i];
        assert content in directory.children;
        if content.canRead && content.isDirectory {
          if content.canonical.None? {
            return Failed;
          }
          if content.path == content.canonical.value {
            outcome := Crawl(content);
            if outcome != Completed {
              return;
            }
          }
        }
        i := i + 1;
      }
      return Completed;
    }

    /** The thread `crawl()` starts: crawl from the storage root, then mark the crawl done if it returned. */
    method CrawlThread(root: Entry) returns (outcome: Outcome)
      modifies this
      ensures var c := CrawlDir(old(Snapshot()), host, services, root);
        outcome == c.outcome && Snapshot() == if outcome == Completed then c.s.(doneCrawling := true) else c.s
      ensures services == old(services) && crawl == old(crawl)
      ensures old(Valid()) ==> Valid()
      ensures old(tasks) <= tasks <= Max(old(tasks), MAX_TASKS + 1)
    {
      ghost var s0 := Snapshot();
      outcome := Crawl(root);
      CrawlBounds(s0, host, services, root, Max(s0.tasks, MAX_TASKS + 1));
      if outcome == Completed {
        doneCrawling := true;
      }
    }

    /** `onServiceConnected` for the `k`th builder awaiting its callback. */
    method Connected(k: nat)
      requires k < |builders|
      modifies this
      ensures Snapshot() == Connect(old(Snapshot()), host, k)
      ensures services == old(services) && crawl == old(crawl)
      ensures old(Valid()) ==> Valid()
    {
      ghost var s0 := Snapshot();
      var b := builders[k];
      pIndexes := pIndexes + [Indexable(host.extract(b.file), b.file, Some(b.serviceName))];
      builders := builders[..k] + builders[k + 1..];
      if mIsBound > 0 {
        mIsBound := mIsBound - 1;
      }
      if Accounted(s0) {
        ConnectKeepsAccounts(s0, host, k);
      }
    }

    /** The first half of a pass of the consumer loop: poll the queue and index what it gives. */
    method ConsumeHead()
      modifies this
      ensures Snapshot() == Consume(old(Snapshot()), host)
      ensures services == old(services) && crawl == old(crawl)
    {
      if pIndexes == [] {
        return;
      }
      var tmp := pIndexes[0];
      pIndexes := pIndexes[1..];
      if tmp.tmpData.None? || tmp.tmpData.value == [] {
        writes := writes + [PathOnly(tmp.file)];
        tasks := tasks - 1;
      } else if host.buildFails(tmp.tmpData.value, tmp.file) {
        leaked := leaked + 1;
      } else {
        writes := writes + [FromPages(tmp.tmpData.value, tmp.file)];
        tasks := tasks - 1;
      }
    }

    /** One pass of the consumer thread's loop; `stop` says the thread ends here. */
    method ConsumerStep() returns (stop: bool)
      modifies this
      ensures Snapshot() == ConsumerStepSpec(old(Snapshot()), host)
      ensures stop == ShouldStop(Consume(old(Snapshot()), host))
      ensures services == old(services) && crawl == old(crawl)
      ensures old(Valid()) ==> Valid()
    {
      ghost var s0 := Snapshot();
      ConsumeHead();
      stop := doneCrawling && mIsBound == 0 && |pIndexes| == 0 && canStop;
      if stop {
        doneCrawling := false;
        stopped := true;
      }
      if Accounted(s0) {
        ConsumerKeepsAccounts(s0, host);
      }
    }
  }
}
