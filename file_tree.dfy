/**
 * The file system as the indexing service sees it through java.io.File:
 * every fact the crawler and the service scan ask of a file is a field of
 * an immutable tree node.
 */
module FileTree {
  import opened Common

  /**
   * One `java.io.File`.
   * - `name`: `getName()`; `path`: `getAbsolutePath()`;
   * - `canonical`: `getCanonicalPath()`, or None when it throws IOException;
   * - `canRead`, `isFile`, `isDirectory`, `lastModified`: the methods of those names
   *   (a special file is neither a file nor a directory);
   * - `listable`: whether `listFiles()` gives an array (false where it gives
   *   null: not a directory, or an I/O error); `children`: that array;
   * - `lines`: the text read line by line with a BufferedReader, None when
   *   opening the file or one of the reads fails.
   */
  datatype Entry = Entry(
    name: string,
    path: string,
    canonical: Option<string>,
    canRead: bool,
    isFile: bool,
    isDirectory: bool,
    lastModified: int,
    listable: bool,
    children: seq<Entry>,
    lines: Option<seq<string>>)
}
