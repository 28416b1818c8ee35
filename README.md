# Android Indexing Service — a Dafny model of the searcher and the indexing service

The Android Indexing Service (AIS) keeps a Lucene full-text index of the files
on a device's external storage. Client applications search that index. This
project models two parts of the system:

- **`FileSearcher`**, the searcher. It can:
  - look up single documents by key (`checkForIndex`, `getDocument`, `getMetaFile`);
  - run the three windowed searches:
    - `findName` lists the paths of matching files;
    - `findIn` gives one result slot per matching page, with highlighted snippets;
    - `find` pages through the matching pages of one file, sorted by a comparator meant to start at a chosen page and wrap around. Lucene admits pages to its result queue through that comparator's `compareBottom`, which can keep other pages than that order asks for (see Findings);
  - be interrupted.
- **`IndexService`**, the indexing service. It:
  - reads the parser-service manifests (`*.is` files) under `Android/data`;
  - crawls the storage tree;
  - decides for each readable entry whether its index is stale;
  - binds a parser service for files with a known extension, or queues the bare path otherwise;
  - drains the queue on a consumer thread into the indexer;
  - stops once crawling is done, nothing is bound, the queue is empty and stopping is allowed.

## Modules

- `Common` (`common.dfy`): `Option` and string helpers (`contains`, `toLowerCase`, `lastIndexOf`).
- `FileTree` (`file_tree.dfy`): a `java.io.File` as an immutable tree node. Its fields are:
  - the name, absolute and canonical path;
  - the readability and kind flags;
  - `lastModified`;
  - the `listFiles()` result;
  - the lines a `BufferedReader` would read.
- `Query` (`query.dfy`): the Lucene queries the searcher builds. It also has the `Engine` record, which stands for the index as an `IndexSearcher` sees it. The engine has seven parts:
  - whether the query parser accepts a text;
  - the ranked matches of a query and filter;
  - key lookups;
  - highlighter fragments;
  - whether a windowed search throws an `IOException` for a query and filter;
  - whether a key lookup throws one;
  - whether reading a document's stored fields (`doc(id)`) throws one.

  The module also defines the wildcard semantics of the BOOLEAN query.
- `PageOrder` (`page_order.dfy`): the page order of `find`. Pages from the start page on come first, in ascending order, then the earlier pages. The module holds:
  - a stable sort that realises this order (the intended result of the sorted search);
  - Lucene's top-N collector (`Offer`, `Collect`): a queue of the requested size that admits hits, once full, through a bottom test. The test is either the comparator's `compareBottom` as written or the `compare(bottom, doc)` it stands for;
  - the `PagedIntComparator` class over its `values` array;
  - the `compareBottom`/`compareTop` comparisons as written.
- `Searcher` (`searcher.dfy`): `Reply` (a value, Java `null`, or an exception), the result windows and the slot-filling loops. The `FileSearcher` class holds the engine, whether the index opened, and the `interrupt` flag.
- `Registry` (`registry.dfy`): the parser-service manifests, the recursive `getServices` scan, and the choice of service for a file name.
- `Indexing` (`index_service.dfy`): the `IndexService` class. It works against a specification state (`State`) made of:
  - the task counter;
  - the bound-connection counter;
  - the `doneCrawling`/`canStop` flags;
  - the pending queue;
  - the builders waiting for a connection;
  - the writes handed to the indexer;
  - a crawl trace of directories entered and entries checked.

### How the environment is modelled

- **Searcher environment.** The searcher's environment is an `Engine` value. The service's environment is a `Host` value, made of:
  - the indexer's staleness answer for a `path:meta` id and a modification time;
  - what `bindService` does for a service name: returns true, returns false, or throws (a `SecurityException` when the app lacks the service's permission, for one);
  - the page texts a parser service returns for a file;
  - whether `FileIndexer.buildIndex` throws for a page list.
- **Interrupts.** An interrupt from another thread is a parameter `interruptAt`. It is the number of the `interrupt` check at which the flag is first seen set. Each search's contract says which checkpoint returns `null` and how the flag is left afterwards.
- **Threads become sequential steps.**
  - The crawler thread is `CrawlThread`.
  - The consumer thread's loop body is `ConsumerStep`.
  - A service connection arriving is `Connected`.
  - The crawler's busy wait `while (tasks > maxTasks)` cannot make progress without another thread, so reaching it is the crawl outcome `Blocked`.
- **The `leaked` ghost counter.** It counts tasks that were counted in `tasks` but will never be queued. With it, the invariant `Accounted` holds: `tasks == |queue| + |builders| + leaked` and `mIsBound == |builders|`. Every operation preserves it.

### Where the model follows the code rather than the design description

- **Directories are passed to `createIndex`.** The crawler passes every readable entry, directories included, to `createIndex` (`IndexService.java:262-264`). A stale directory is therefore queued as a bare path like any other entry without a parser.
- **The crawler waits while `tasks > 30`, not `tasks >= 30`.** So up to 31 tasks can be outstanding (`CrawlAdmission`).
- **An own-data path ends the crawl of that directory.** When an entry's path contains `Android/data/ca.dracode.ais`, the crawl of the directory containing it returns (`IndexService.java:252-253`). That entry is not simply skipped: the remaining entries and all subdirectories are abandoned too.
- **A highlighting failure yields `null` for the whole result.** A highlighter exception leaves `frag` null, and the log line after it dereferences it. The whole `findIn`/`find` call then returns `null`, where the design calls for an empty snippet list for that page.

## Model

| member | source | states |
|---|---|---|
| Common.Contains | src/ca/dracode/ais/service/IndexService.java:252 | `s.contains(sub)` holds exactly when `sub` occurs in `s` at some position |
| Common.ToLower | src/ca/dracode/ais/service/IndexService.java:89 | ASCII lower-casing: `A`–`Z` become `a`–`z`, every other character is kept, and the length is unchanged |
| Common.LastIndexOf | src/ca/dracode/ais/service/IndexService.java:287 | the result is -1 exactly when the character is absent; otherwise it is at the result and nowhere after it |
| Query.Take | src/ca/dracode/ais/indexer/FileSearcher.java:196 | a search limited to `n` gives the first `min(n, all)` hits, in rank order |
| Query.MetaId | src/ca/dracode/ais/indexer/FileSearcher.java:141 | the metadata id is the path followed by `:meta` |
| Query.MetaIdInjective | src/ca/dracode/ais/indexer/FileSearcher.java:139-159 | two different paths never share a metadata id, so `getMetaFile` looks up one file's metadata |
| Query.WildcardPattern | src/ca/dracode/ais/indexer/FileSearcher.java:172 | the BOOLEAN pattern is the term with one `*` before and one after it |
| Query.BuildQuery | src/ca/dracode/ais/indexer/FileSearcher.java:169-182 | BOOLEAN gives the wildcard query; STANDARD gives a query exactly when the parser accepts the term; any other type gives none |
| Query.BuildFilter | src/ca/dracode/ais/indexer/FileSearcher.java:188-193 | the filter has one MUST term clause per constraint value, in order |
| Query.GlobPrefix | src/ca/dracode/ais/indexer/FileSearcher.java:172 | a literal followed by `*` matches exactly the terms that start with it |
| Query.GlobLeadingStar | src/ca/dracode/ais/indexer/FileSearcher.java:172 | a leading `*` lets the rest of the pattern match any suffix of the term |
| Query.WildcardMeansContains | src/ca/dracode/ais/indexer/FileSearcher.java:172 | for a term without wildcard characters, `*term*` matches exactly the indexed terms that contain the term |
| PageOrder.ComparePages | src/ca/dracode/ais/indexer/FileSearcher.java:436-456 | `compare` gives -1, 0 or 1. It is -1 exactly when the first page comes first in the wrapped order, 1 exactly when the second does, and 0 exactly on equal pages. A page from the start page on precedes any earlier page |
| PageOrder.CompareAntisymmetric | src/ca/dracode/ais/indexer/FileSearcher.java:436-456 | `compare` is reflexive-zero and antisymmetric |
| PageOrder.CompareTransitive | src/ca/dracode/ais/indexer/FileSearcher.java:436-456 | `compare` is transitive, both for "not after" and for "strictly before" |
| PageOrder.CompareTotal | src/ca/dracode/ais/indexer/FileSearcher.java:436-456 | any two pages are comparable, so `compare` is a total preorder Lucene can sort by |
| PageOrder.CompareBottomValue | src/ca/dracode/ais/indexer/FileSearcher.java:459-480 | `compareBottom` as written: any document page before the start page is -1; otherwise it is the plain numeric comparison with `bottom` |
| PageOrder.CompareTopValue | src/ca/dracode/ais/indexer/FileSearcher.java:483-500 | `compareTop` as written: 1 when the top is before the start page and the document strictly after it; otherwise the plain numeric comparison |
| PageOrder.CompareBottomAgreement | src/ca/dracode/ais/indexer/FileSearcher.java:459-480 | `compareBottom` agrees with `compare` exactly when the bottom is at or after the start page, or the document falls strictly between the bottom and the start page |
| PageOrder.CompareBottomMisorders | src/ca/dracode/ais/indexer/FileSearcher.java:470-476 | with the start page 5, bottom 1 and document page 7, `compare` puts page 7 first, but `compareBottom` says page 1 is first |
| PageOrder.CompareTopAgreement | src/ca/dracode/ais/indexer/FileSearcher.java:483-500 | `compareTop` disagrees with `compare` exactly when the top is before the start page and the document is the start page, or the document is before the start page and the top is not |
| PageOrder.CompareTopMisorders | src/ca/dracode/ais/indexer/FileSearcher.java:491-495 | with the start page 5, top 3 and document page 5, `compare` puts page 5 first, but `compareTop` says page 3 is first |
| PageOrder.InsertByPage | src/ca/dracode/ais/indexer/FileSearcher.java:427-436 | inserting a hit into the page-sorted list adds exactly that hit |
| PageOrder.SortByPage | src/ca/dracode/ais/indexer/FileSearcher.java:427-436 | the full sort by `compare`, the result the sorted search is meant to give, is a permutation of the hits |
| PageOrder.SortedPrefix | src/ca/dracode/ais/indexer/FileSearcher.java:436-456 | the front of a list in `compare` order is in `compare` order |
| PageOrder.SortedTail | src/ca/dracode/ais/indexer/FileSearcher.java:436-456 | a list in `compare` order stays in `compare` order without its first element |
| PageOrder.InsertStaysAbove | src/ca/dracode/ais/indexer/FileSearcher.java:436-456 | a page that comes no later than the inserted hit and every listed hit comes no later than anything in the result |
| PageOrder.ConsSorted | src/ca/dracode/ais/indexer/FileSearcher.java:436-456 | a sorted list stays in `compare` order under a head that comes no later than any of its elements |
| PageOrder.InsertKeepsSorted | src/ca/dracode/ais/indexer/FileSearcher.java:436-456 | inserting into a list sorted by `compare` keeps it sorted |
| PageOrder.SortByPageSorted | src/ca/dracode/ais/indexer/FileSearcher.java:427-456 | the sorted hits are in `compare` order |
| PageOrder.Offer | src/ca/dracode/ais/indexer/FileSearcher.java:427-503 | offering one hit to the collector's queue grows it by one until it holds the requested number of hits, and then keeps its size |
| PageOrder.Collect | src/ca/dracode/ais/indexer/FileSearcher.java:427-503 | the sorted search keeps as many hits as were requested, or all of them when fewer match |
| PageOrder.OfferKeepsSorted | src/ca/dracode/ais/indexer/FileSearcher.java:427-456 | a queue in `compare` order stays in `compare` order when a hit is offered, whatever the bottom test |
| PageOrder.CollectSorted | src/ca/dracode/ais/indexer/FileSearcher.java:427-456 | the hits the sorted search keeps are in `compare` order, whatever the bottom test |
| PageOrder.OfferAddsOnlyTheHit | src/ca/dracode/ais/indexer/FileSearcher.java:459-480 | an offered hit either joins the queue or is turned away; nothing else enters |
| PageOrder.CollectDrawsFromMatches | src/ca/dracode/ais/indexer/FileSearcher.java:427-503 | the kept hits are matches, each kept at most as often as it was found |
| PageOrder.InsertThenCutBefore | src/ca/dracode/ais/indexer/FileSearcher.java:436-456 | a hit that sorts before the `n`-th element of a sorted list lands among its first `n - 1` |
| PageOrder.InsertThenCutAfter | src/ca/dracode/ais/indexer/FileSearcher.java:436-456 | a hit that does not sort before the `n`-th element leaves the first `n` as they were |
| PageOrder.OfferCutsInsert | src/ca/dracode/ais/indexer/FileSearcher.java:436-456 | with the consistent bottom test, offering a hit to the first `n` of a sorted list gives the first `n` of the list with the hit inserted |
| PageOrder.CollectConsistent | src/ca/dracode/ais/indexer/FileSearcher.java:459-480 | with a bottom test that agrees with `compare`, the sorted search keeps exactly the first `n` hits of the full sort |
| PageOrder.OfferFromStartPage | src/ca/dracode/ais/indexer/FileSearcher.java:470-476 | with a queue bottom at or after the start page, `compareBottom` admits an offered hit exactly when `compare` would |
| PageOrder.CollectFromStartPage | src/ca/dracode/ais/indexer/FileSearcher.java:470-476 | when no match lies before the start page, `compareBottom` as written keeps exactly what the consistent test keeps, so `find` then gives the first pages of the full sort |
| PageOrder.SortedWrapsAtPage | src/ca/dracode/ais/indexer/FileSearcher.java:338-341 | a list sorted by `compare` starts with the pages from the start page on, ascending, then the earlier pages, ascending |
| PageOrder.WrapOrderedSlice | src/ca/dracode/ais/indexer/FileSearcher.java:515-518 | any contiguous window of a wrap-ordered list is wrap-ordered |
| PageOrder.PagedIntComparator.constructor | src/ca/dracode/ais/indexer/FileSearcher.java:350-355 | the comparator gets a zeroed `values` array with one slot per requested hit |
| PageOrder.PagedIntComparator.Copy | src/ca/dracode/ais/indexer/FileSearcher.java:357-366 | `copy` stores the document's page in its slot and changes no other slot |
| PageOrder.PagedIntComparator.SetBottom | src/ca/dracode/ais/indexer/FileSearcher.java:377-379 | `bottom` becomes the value held in the given slot |
| PageOrder.PagedIntComparator.SetTopValue | src/ca/dracode/ais/indexer/FileSearcher.java:382-384 | `topValue` becomes the given value |
| PageOrder.PagedIntComparator.Value | src/ca/dracode/ais/indexer/FileSearcher.java:387-389 | `value` reads the slot |
| PageOrder.PagedIntComparator.Compare | src/ca/dracode/ais/indexer/FileSearcher.java:436-456 | comparing two slots is the wrapped page order on their values |
| PageOrder.PagedIntComparator.CompareBottom | src/ca/dracode/ais/indexer/FileSearcher.java:459-480 | comparing with the bottom is `compareBottom` as written |
| PageOrder.PagedIntComparator.CompareTop | src/ca/dracode/ais/indexer/FileSearcher.java:483-500 | comparing with the top is `compareTop` as written |
| Searcher.Window | src/ca/dracode/ais/indexer/FileSearcher.java:205 | page set `set` holds at most `maxResults` hits: those ranked from `maxResults*set` up to the search limit, or none when fewer hits exist |
| Searcher.WindowsDisjoint | src/ca/dracode/ais/indexer/FileSearcher.java:205 | two different page sets never share a hit |
| Searcher.WindowOfLimitedHits | src/ca/dracode/ais/indexer/FileSearcher.java:196-205 | limiting the search to `maxResults + maxResults*set` hits loses nothing the window reads |
| Searcher.PagesCoverHits | src/ca/dracode/ais/indexer/FileSearcher.java:205 | page sets 0 to n-1, read one after another, give exactly the first `maxResults*n` hits: no hit is skipped or repeated |
| Searcher.FindWindowAsWritten | src/ca/dracode/ais/indexer/FileSearcher.java:515-518 | the `find` loop as written throws exactly when there are fewer hits than the search limit; otherwise it reads every hit from the window start on |
| Searcher.FindWindowFailsShortOfLimit | src/ca/dracode/ais/indexer/FileSearcher.java:515-518 | for any index, the written `find` loop fails exactly when fewer than `maxResults + maxResults*set` documents match; when it succeeds it reads the intended window |
| Searcher.FindFirstPageFails | src/ca/dracode/ais/indexer/FileSearcher.java:515-518 | three matching pages and `maxResults` 10 on page set 0 make the written loop throw, where the intended window is those three pages |
| Searcher.Unset | src/ca/dracode/ais/indexer/FileSearcher.java:286 | a fresh result array has one empty slot per document |
| Searcher.FillIn | src/ca/dracode/ais/indexer/FileSearcher.java:285-321 | the `findIn` loop leaves one slot per document and takes at least as many steps as slots it filled |
| Searcher.FillAll | src/ca/dracode/ais/indexer/FileSearcher.java:534-569 | the `find` loop, when it does not fail, gives one result per document |
| Searcher.Paths | src/ca/dracode/ais/indexer/FileSearcher.java:205-212 | `findName` replies with each window document's path, in order |
| Searcher.FilterOf | src/ca/dracode/ais/indexer/FileSearcher.java:188-193 | the constraint filter as a value: one MUST term clause per constraint value, in order |
| Searcher.NameRunReply | src/ca/dracode/ais/indexer/FileSearcher.java:162-223 | `findName` gives an empty list for an unknown type and for a STANDARD text the parser refuses. For a BOOLEAN query, and for a STANDARD query that parses, it throws when the search throws (the hit list stays null and is dereferenced), and otherwise gives the paths of exactly the readable documents of the window of matches, in order. It never gives more than `maxResults` paths |
| Searcher.UnsetCount | src/ca/dracode/ais/indexer/FileSearcher.java:286 | empty slots add no snippets |
| Searcher.FillInBudget | src/ca/dracode/ais/indexer/FileSearcher.java:287-302 | a STANDARD `findIn` never returns more snippets in total than `maxResults` |
| Searcher.FillInSlots | src/ca/dracode/ais/indexer/FileSearcher.java:292-318 | every filled slot carries the page and path of the document at the same position |
| Searcher.TermSlots | src/ca/dracode/ais/indexer/FileSearcher.java:315-319 | a BOOLEAN reply has one slot per document |
| Searcher.FillInBoolean | src/ca/dracode/ais/indexer/FileSearcher.java:315-319 | a BOOLEAN `findIn` fills every slot with the search term as its only snippet, whatever the budget |
| Searcher.InRunReply | src/ca/dracode/ais/indexer/FileSearcher.java:226-335 | `findIn` gives an empty array for an unknown type or unparsable query, and throws when the search throws. Otherwise it gives one slot per readable window document, each filled from that document. A BOOLEAN search gives the term slots; a STANDARD search stays within the snippet budget |
| Searcher.FillAllResults | src/ca/dracode/ais/indexer/FileSearcher.java:541-567 | every `find` result carries its document's page and the constraint value as source |
| Searcher.FillAllKeepsOrder | src/ca/dracode/ais/indexer/FileSearcher.java:536-569 | results come out in the order of their pages, so wrap-ordered documents give wrap-ordered results |
| Searcher.SortedWindowWraps | src/ca/dracode/ais/indexer/FileSearcher.java:417-518 | with enough matches the collector fills the limit, and the window read from the kept hits is wrap-ordered |
| Searcher.PagedRunReply | src/ca/dracode/ais/indexer/FileSearcher.java:393-584 | `find` throws when its search throws. Otherwise, with its window loop as written, it throws exactly when fewer than `maxResults + maxResults*set` pages match. A reply it gives has at most `maxResults` results, one per readable document among the last `maxResults` kept hits, in order: result `j` has the page of the `j`-th of them, and when all can be read they are exactly those hits. The kept hits are those Lucene's collector admits through `compareBottom` as written. All results are from the constrained file, in wrapped page order from the start page |
| Searcher.FirstArrivalKept | src/ca/dracode/ais/indexer/FileSearcher.java:470-476 | pages 0 to 3 found in that order, one slot, start page 2: the collector keeps page 0 |
| Searcher.WrappedOrderStartsAtTwo | src/ca/dracode/ais/indexer/FileSearcher.java:436-456 | the same pages in the full wrapped order start with page 2 |
| Searcher.FindKeepsFirstArrival | src/ca/dracode/ais/indexer/FileSearcher.java:427-575 | for those four pages, with one result per set, start page 2 and page 0 readable, `find` keeps page 0 and replies with page 0, where the wrapped order it asks for starts with page 2 |
| Searcher.WindowReply | src/ca/dracode/ais/indexer/FileSearcher.java:533-575 | from wrap-ordered documents, the `find` loop, when it does not fail, returns one result per document, each with the page of the document in its position, from the constrained file, in wrapped page order |
| Searcher.ReadWindow | src/ca/dracode/ais/indexer/FileSearcher.java:205-212 | the bounded loop reads exactly the readable documents of the window, in order, skipping each one whose read throws |
| Searcher.ReadableMembers | src/ca/dracode/ais/indexer/FileSearcher.java:205-212 | a document is kept by the window loops exactly when it is among the hits and its read does not throw |
| Searcher.ReadableAllRead | src/ca/dracode/ais/indexer/FileSearcher.java:269-275 | when every document can be read, the window loops keep every hit |
| Searcher.ReadableWrapOrdered | src/ca/dracode/ais/indexer/FileSearcher.java:515-523 | skipping unreadable documents keeps the rest in wrapped page order |
| Searcher.PagedFullWindow | src/ca/dracode/ais/indexer/FileSearcher.java:505-584 | when the search succeeds and fills the limit, `find` does not throw, and its reply is the readable part of the last `maxResults` kept hits, from the constrained file, in wrapped page order |
| Searcher.KeptHitReply | src/ca/dracode/ais/indexer/FileSearcher.java:515-575 | with one result per set and the collector keeping one readable hit, a reply of `find` is that hit's page |
| Searcher.ReadWindowAsWritten | src/ca/dracode/ais/indexer/FileSearcher.java:515-527 | the `find` loop as written, step by step, throws exactly when the as-written window throws, never gives null, and otherwise gives the readable documents of the as-written window |
| Searcher.FileSearcher.constructor | src/ca/dracode/ais/indexer/FileSearcher.java:89-102 | a new searcher is not interrupted and remembers whether the index opened |
| Searcher.FileSearcher.Interrupt | src/ca/dracode/ais/indexer/FileSearcher.java:586-590 | `interrupt` returns the previous flag and leaves it set |
| Searcher.FileSearcher.Poll | src/ca/dracode/ais/indexer/FileSearcher.java:164-168 | a checkpoint sees the flag set when it was set before or the interrupt lands at or before it |
| Searcher.FileSearcher.CheckForIndex | src/ca/dracode/ais/indexer/FileSearcher.java:104-123 | on an open index, `checkForIndex` throws when the key search throws and is otherwise true exactly when the key matches a document. On a closed index it reopens the index and answers false; when reopening fails the `IOException` escapes and the index stays closed |
| Searcher.FileSearcher.GetDocument | src/ca/dracode/ais/indexer/FileSearcher.java:125-137 | `getDocument` gives null when the index is closed or no document has the key; it throws when the search or the read of the first document throws; otherwise it gives that first document |
| Searcher.FileSearcher.GetMetaFile | src/ca/dracode/ais/indexer/FileSearcher.java:139-160 | `getMetaFile` throws exactly when the index is closed or the search throws (the hit list stays null). Otherwise it gives null exactly when no metadata document exists or reading it throws, and else the first one |
| Searcher.FileSearcher.FindName | src/ca/dracode/ais/indexer/FileSearcher.java:162-224 | `findName` returns null exactly when an interrupt is seen at one of its checkpoints, and leaves the flag set. Otherwise it returns the uninterrupted reply |
| Searcher.FileSearcher.FillSlot | src/ca/dracode/ais/indexer/FileSearcher.java:292-319 | one iteration fills only slot `i`, and does so as the loop specification says |
| Searcher.FileSearcher.AssembleSlots | src/ca/dracode/ais/indexer/FileSearcher.java:284-331 | the slot loop over the array returns the specified slots, or null on an interrupt or a highlighter failure |
| Searcher.FileSearcher.FindIn | src/ca/dracode/ais/indexer/FileSearcher.java:226-336 | `findIn` returns null exactly when an interrupt is seen at one of its checkpoints, and leaves the flag set. Otherwise it returns the uninterrupted reply |
| Searcher.FileSearcher.AssembleResults | src/ca/dracode/ais/indexer/FileSearcher.java:533-579 | the `find` loop returns the specified results, or null on an interrupt or a failure, and clears the flag |
| Searcher.FileSearcher.Find | src/ca/dracode/ais/indexer/FileSearcher.java:393-584 | `find` returns null on an interrupt. The flag stays set only when the interrupt is seen right after the search; every other checkpoint clears it. Otherwise `find` returns the uninterrupted reply |
| Searcher.FileSearcher.SearchPaged | src/ca/dracode/ais/indexer/FileSearcher.java:417-584 | `find` once its query is built: null on an interrupt at a later checkpoint, with the flag left set only at the one right after the search; otherwise the uninterrupted reply, which throws when the search throws |
| Searcher.FileSearcher.ReadAndAssemble | src/ca/dracode/ais/indexer/FileSearcher.java:512-579 | the window loop as written, checkpoint 3 and the assembly: null on an interrupt, which clears the flag; otherwise the reply of the rest of `find`, throwing when the loop reads past the hits |
| Registry.ManifestKeepsLines | src/ca/dracode/ais/service/IndexService.java:97-111 | a manifest read back as text gives its lines again |
| Registry.ManifestRoundTrip | src/ca/dracode/ais/service/IndexService.java:97-111 | writing a service's manifest and reading it gives the same service |
| Registry.ReadManifest | src/ca/dracode/ais/service/IndexService.java:97-115 | the line-reading loop gives the service the manifest describes: its name from the first line, its extensions from the rest |
| Registry.GetServices | src/ca/dracode/ais/service/IndexService.java:84-122 | the recursive scan appends the services of the readable manifests in listing order, or crashes on an unlistable directory |
| Registry.ScanFinds | src/ca/dracode/ais/service/IndexService.java:84-122 | the scan keeps the services it was given and adds only services from readable `*.is` files reachable through readable directories |
| Registry.ScanFromFinds | src/ca/dracode/ais/service/IndexService.java:86-121 | the same, for the rest of one directory listing |
| Registry.ScanGrows | src/ca/dracode/ais/service/IndexService.java:84-122 | the scan only appends to the list |
| Registry.ScanFromGrows | src/ca/dracode/ais/service/IndexService.java:86-121 | the same, for the rest of one directory listing |
| Registry.ScanComplete | src/ca/dracode/ais/service/IndexService.java:84-122 | every readable `.is` file whose lines can be read, reachable through readable directories, is found |
| Registry.ScanFromComplete | src/ca/dracode/ais/service/IndexService.java:86-121 | the same, for the rest of one directory listing |
| Registry.Extension | src/ca/dracode/ais/service/IndexService.java:287-292 | a name without a dot has no extension. Otherwise the extension is the lower-cased text after the last dot |
| Registry.LastMatch | src/ca/dracode/ais/service/IndexService.java:286-297 | the chosen service position is the last one that claims the extension, and none is chosen exactly when no service claims it |
| Registry.ChosenNameStep | src/ca/dracode/ais/service/IndexService.java:286-297 | one more service either takes over the choice, when it claims the extension, or leaves it unchanged |
| Registry.ServiceFor | src/ca/dracode/ais/service/IndexService.java:283-297 | the loop over the services gives the specified choice |
| Registry.LastMatchWins | src/ca/dracode/ais/service/IndexService.java:286-297 | when several services claim an extension, the last one in the list wins |
| Indexing.CreateIndexDispatch | src/ca/dracode/ais/service/IndexService.java:282-327 | without an indexer (no successful `onCreate`), `createIndex` changes nothing: the `NullPointerException` at the staleness check is caught. Otherwise an up-to-date or unknown index state changes nothing. On a stale or missing index, a builder whose `bindService` throws is caught and changes nothing, exactly when the state is left unchanged; otherwise one task is added. A file gets a builder for its chosen service; a directory is queued as a bare path |
| Indexing.CreateIndexKeepsAccounts | src/ca/dracode/ais/service/IndexService.java:299-323 | every task `createIndex` counts is queued, awaiting a connection, or leaked |
| Indexing.CreateIndexKeepsTrace | src/ca/dracode/ais/service/IndexService.java:282-327 | `createIndex` adds nothing to the crawl trace |
| Indexing.CrawlExtendsTrace | src/ca/dracode/ais/service/IndexService.java:246-276 | a crawl first enters its directory and only adds to the trace |
| Indexing.SubdirsExtendTrace | src/ca/dracode/ais/service/IndexService.java:266-274 | the subdirectory pass only adds to the trace |
| Indexing.CheckEntriesTrace | src/ca/dracode/ais/service/IndexService.java:251-265 | the first pass checks the readable entries of a prefix of the listing, in order, and the whole listing when it does not stop early. No entry of the prefix is inside the own-data directory. When it stops early it stops at the entry after the prefix, which is an own-data entry exactly when the stop completes the directory's crawl; otherwise the stop is the wait |
| Indexing.CrawlFilesFirst | src/ca/dracode/ais/service/IndexService.java:246-276 | a crawl enters the directory and checks its entries before entering any subdirectory. When it stops early, nothing follows the checks. The checks end before the first own-data entry, so that entry, every later entry and every subdirectory are abandoned |
| Indexing.CrawlAvoidsOwnData | src/ca/dracode/ais/service/IndexService.java:252-253 | after entering a directory, the crawl never checks or enters a path inside the service's own data directory |
| Indexing.CheckEntriesAvoid | src/ca/dracode/ais/service/IndexService.java:251-265 | the first pass never checks a path inside the own-data directory |
| Indexing.CheckedAvoidOwnData | src/ca/dracode/ais/service/IndexService.java:251-254 | a first pass that completes saw no own-data path in the rest of the listing |
| Indexing.SubdirsAvoidOwnData | src/ca/dracode/ais/service/IndexService.java:266-274 | the subdirectory pass never checks or enters an own-data path, given that the listing holds none |
| Indexing.ChecksOnlyChecked | src/ca/dracode/ais/service/IndexService.java:262-264 | the first pass records only checks |
| Indexing.CrawlBounds | src/ca/dracode/ais/service/IndexService.java:246-276 | a crawl never lowers the task count, never raises it past any bound of at least 31, and keeps the accounting |
| Indexing.CheckEntriesBounds | src/ca/dracode/ais/service/IndexService.java:251-265 | the same, for the first pass |
| Indexing.SubdirsBounds | src/ca/dracode/ais/service/IndexService.java:266-274 | the same, for the subdirectory pass |
| Indexing.CrawlAdmission | src/ca/dracode/ais/service/IndexService.java:255-264 | the crawler alone never takes the task count above 31, or above where it started |
| Indexing.CrawlEntersFollowable | src/ca/dracode/ais/service/IndexService.java:266-274 | every directory a crawl enters after its own is reached from it through readable, non-symlinked directories |
| Indexing.SubdirsEntersFollowable | src/ca/dracode/ais/service/IndexService.java:266-274 | the same, for the subdirectory pass |
| Indexing.ConnectKeepsAccounts | src/ca/dracode/ais/service/IndexService.java:444-464 | a connection moves its builder's task to the end of the queue. The task count is unchanged and the queue before it is untouched |
| Indexing.ConsumeStep | src/ca/dracode/ais/service/IndexService.java:181-196 | the consumer takes the queue head. A bare path is written as a path and ends its task. Pages are written and end the task unless the indexer throws, in which case the task is never ended |
| Indexing.ConsumerKeepsAccounts | src/ca/dracode/ais/service/IndexService.java:175-207 | a consumer iteration keeps the accounting |
| Indexing.ShutdownWhenDrained | src/ca/dracode/ais/service/IndexService.java:197-206 | the consumer stops exactly when crawling is done, nothing is bound, the queue is empty and stopping is allowed. At that point every counted task has ended or was leaked |
| Indexing.BindFailureLeaks | src/ca/dracode/ais/service/IndexService.java:423-426 | when `bindService` returns false, the task is counted but never queued or awaited |
| Indexing.LeaksBlockCrawl | src/ca/dracode/ais/service/IndexService.java:255-261 | with more than 30 leaked tasks, the next crawl stops at the wait before its first entry |
| Indexing.RecoveringBuilderLeaksNothing | src/ca/dracode/ais/service/IndexService.java:398-428 | a builder that falls back to queueing the bare path when the bind returns false or throws never leaks a task, and its task is ended by the consumer |
| Indexing.IndexService.constructor | src/ca/dracode/ais/service/IndexService.java:66-76 | a new service has no tasks, no connections, an empty queue, no services and no indexer |
| Indexing.IndexService.OnCreate | src/ca/dracode/ais/service/IndexService.java:140-210 | `onCreate` starts only on writable storage whose service scan succeeds. It then loads exactly the scanned services, creates the indexer, empties the queue and marks crawling done; otherwise nothing changes and no indexer exists |
| Indexing.IndexService.OnStartCommand | src/ca/dracode/ais/service/IndexService.java:125-137 | a crawl request allows stopping and marks crawling not done; a non-crawl start does the opposite |
| Indexing.IndexService.StopWhenReady | src/ca/dracode/ais/service/IndexService.java:215-217 | `stopWhenReady` only allows stopping |
| Indexing.IndexService.RemoteBuilder | src/ca/dracode/ais/service/IndexService.java:398-428 | a builder without a service queues the bare path. With a service it waits for a connection when the bind returns true, is lost when it returns false, and lets the exception out, changing nothing, when it throws |
| Indexing.IndexService.CreateIndex | src/ca/dracode/ais/service/IndexService.java:282-327 | `createIndex` does what its specification says, with the service chosen by the last matching extension. Without an indexer it does nothing; a builder that throws is caught and no task is counted |
| Indexing.IndexService.Crawl | src/ca/dracode/ais/service/IndexService.java:246-276 | the recursive two-pass crawl over the listing does what its specification says |
| Indexing.IndexService.CrawlThread | src/ca/dracode/ais/service/IndexService.java:227-239 | the crawler thread crawls the storage root and marks crawling done only when the crawl completes. It keeps the accounting and never lifts the task count past 31 |
| Indexing.IndexService.Connected | src/ca/dracode/ais/service/IndexService.java:444-464 | a connection queues the parser's pages and unbinds, keeping the accounting |
| Indexing.IndexService.ConsumeHead | src/ca/dracode/ais/service/IndexService.java:181-196 | one poll of the queue does what its specification says |
| Indexing.IndexService.ConsumerStep | src/ca/dracode/ais/service/IndexService.java:175-207 | one consumer iteration polls the queue, then stops and closes the indexer exactly when the shutdown condition holds. It keeps the accounting |

## Left out

- Notifications, storage-state detection and `onDestroy`: Android UI and platform calls. Storage availability is the `writable` parameter of `OnCreate`.
- Common.ToLower: only ASCII letters are lower-cased, independent of the locale. Java's `toLowerCase()` follows the default locale and full Unicode case mapping. So `Ä` becomes `ä` there, a Turkish locale lower-cases `I` to a dotless `ı` (so a `X.IS` manifest is not recognised), and `İ` becomes two characters.
- Registry.GetServices: the file system is a finite tree. `getServices` follows every readable directory without a canonical-path check, so on a device where a symbolic link leads back to an ancestor it recurses until the stack overflows and `onCreate` dies. The model cannot express such a cycle: its scan always ends, and `ScanComplete` says nothing about that case.
- Lucene's collector is modelled for one comparator and no scores, with the hits arriving in index order (`OneComparatorNonScoringCollector`). Hits from several index segments, documents without a `page` value (`missingValue`) and the out-of-order variant are not modelled.
- Threads and their interleavings. The crawler, the consumer and the service connections are sequential steps. The crawler's busy wait is the `Blocked` outcome, not a wait, and the one-millisecond sleeps are dropped.
- The inter-process calls to a parser service (`loadFile`, `getPageCount`, `getWordsForPage`): the page texts are the `extract` field of `Host`. A `RemoteException` part-way is not told apart from the texts read so far.
- `onServiceDisconnected`, `removeIndex`, `onBind`/`LocalBinder`: not modelled. They do not feed the crawl or the queue.
- The internals of `FileIndexer` are not part of this model. Its staleness check, its `buildIndex` failure and its `close` are parameters. `close` is recorded as the `stopped` flag.
- `ParserService.checkExtension` is not part of this model. It is taken to be membership of the extension in the manifest's list.
- Lucene's `IOException`s are fixed properties of the engine: a search, a key lookup or a document read either always throws or never does. A read that fails once and succeeds on a later call is not modelled, nor is the `NumberFormatException` that a non-numeric `page` field would raise in `find`.
- Lucene itself: scoring, analysis, the query parser and the highlighter are the `Engine` record. `Highlighter.getBestFragments` keeping to the requested count is the hypothesis `KeepsFragmentCount`.
- Searcher.FillInBudget: the snippet bound holds only under the `KeepsFragmentCount` hypothesis on Lucene's highlighter.
- Searcher.InRunReply: the snippet bound is stated under the same hypothesis.
- Java 32-bit arithmetic: `maxResults + maxResults*set` is unbounded here, and negative `maxResults` or `set` cannot be expressed (both are `nat`). Lucene refuses a zero limit, and the model treats that as a thrown exception.
- Indexing.IndexService.OnCreate: a scan that crashes part-way is modelled as leaving no services, rather than the partly filled list the Java object would hold before the uncaught exception ends `onCreate`.
- Indexing.IndexService.OnStartCommand: the `START_STICKY` return value and the start of the crawler thread are not modelled. The thread is `CrawlThread`, called by whoever drives the model.
- The `IOException` that `getCanonicalPath` can throw becomes the `Failed` crawl outcome. The crawler thread then does not mark crawling done.
- The alarm receiver, the activities and the remaining service classes are not part of this model.

## Findings

| source | as written | input that shows it | evidently intended | confidence | as-written member | corrected member |
|---|---|---|---|---|---|---|
| src/ca/dracode/ais/indexer/FileSearcher.java:515-518 | the `find` window loop runs while `i < hits.length \|\| i < maxResults*set + maxResults`, reading `hits[i]` past the end whenever fewer hits than the limit exist | a file with three matching pages, `maxResults` 10, page set 0: `hits[3]` throws `ArrayIndexOutOfBoundsException`, which no handler around the loop catches, so `find` throws | `&&`, as in `findName` and `findIn`: read the window up to the end of the hits | not executed | Searcher.FindFirstPageFails | Searcher.ReadWindow |
| src/ca/dracode/ais/indexer/FileSearcher.java:470-476 | `compareBottom` returns -1 for any document page before the start page, and otherwise compares numerically, even when `bottom` itself is before the start page. Lucene's collector uses it to decide, once its queue is full, whether a hit displaces the bottom, so `find` keeps the wrong pages | pages 0 to 3 of one file found in that order, page 0 readable, `maxResults` 1, page set 0, start page 2: page 0 fills the one slot, and `compareBottom` turns pages 1, 2 and 3 away, so `find` replies with page 0 where the wrapped order starts with page 2 | the same wrapped order as `compare`, so that the collector keeps the first pages of the full sort | not executed | Searcher.FindKeepsFirstArrival | PageOrder.CollectConsistent |
| src/ca/dracode/ais/indexer/FileSearcher.java:491-495 | `compareTop` uses `docValue > page`, so the start page itself, and pages before it when the top is at or after it, are compared numerically | start page 5, top 3, document page 5: `compareTop` says -1, while `compare` puts page 5 before page 3. Only Lucene's paging collector (`searchAfter`) calls `compareTop`, and `find` does not use it, so no reply of the program shows this | the same wrapped order as `compare` | not executed | PageOrder.CompareTopMisorders | PageOrder.ComparePages |
| src/ca/dracode/ais/service/IndexService.java:423-426 | when `bindService` returns false, the `RemoteBuilder` constructor returns normally, so `createIndex` still counts the task, and nothing later queues the file or ends the task | 31 stale files whose extension belongs to a service whose `bindService` returns false: `tasks` reaches 31 and never falls, so the next readable entry waits forever and the service never stops | queue the bare path when the bind does not succeed, so the consumer ends the task | not executed | Indexing.LeaksBlockCrawl | Indexing.RecoveringBuilderLeaksNothing |
