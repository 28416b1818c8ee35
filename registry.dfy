/**
 * The registry of extraction services: the `.is` manifests `getServices`
 * collects from a directory tree, and the choice in `createIndex` of the
 * service that handles a file's extension.
 */
module Registry {
  import opened Common
  import opened FileTree

  /**
   * A `ParserService`: the name on the first line of its manifest (null for
   * an empty manifest) and the extensions on the lines after it.
   */
  datatype Service = Service(name: Option<string>, extensions: seq<string>)

  /** The name suffix that marks a manifest, compared after lowercasing. */
  const MANIFEST_SUFFIX: string := ".is"

  // ----- manifests -----

  /** What `getServices` makes of a manifest's lines. */
  function Manifest(lines: seq<string>): Service {
    if lines == [] then Service(None, []) else Service(Some(lines[0]), lines[1..])
  }

  /** The manifest text a service is written as: its name, then one extension per line. */
  function ManifestText(s: Service): seq<string> {
    match s.name
    case None => []
    case Some(n) => [n] + s.extensions
  }

  /** Parsing gives back every line: the first as the name, every later one as an extension, in order. */
  lemma ManifestKeepsLines(lines: seq<string>)
    ensures ManifestText(Manifest(lines)) == lines
  {
    if lines != [] {
      assert [lines[0]] + lines[1..] == lines;
    }
  }

  /** A service with a name (or an empty one) is read back as it was written. */
  lemma ManifestRoundTrip(s: Service)
    requires s.name.Some? || s.extensions == []
    ensures Manifest(ManifestText(s)) == s
  {
    if s.name.Some? {
      assert ManifestText(s)[1..] == s.extensions;
    }
  }

  /**
   * The read loop of `getServices`: the first `readLine()` gives the name;
   * only when it is not null are the further lines read, each one an
   * extension, until `readLine()` gives null.
   */
  method ReadManifest(lines: seq<string>) returns (s: Service)
    ensures s == Manifest(lines)
  {
    var name: Option<string> := if lines == [] then None else Some(lines[0]);
    var extensions: seq<string> := [];
    if name.Some? {
      var k := 1;
      while k < |lines|
        invariant 1 <= k <= |lines| && extensions == lines[1..k]
      {
        extensions := extensions + [lines[k]];
        k := k + 1;
      }
    }
    s := Service(name, extensions);
  }

  /** Whether `getServices` takes a file for a manifest: its lowercased name ends in `.is`. */
  predicate IsManifestName(name: string) {
    EndsWith(ToLower(name), MANIFEST_SUFFIX)
  }

  /** The service a readable file contributes: one when it is a manifest that reads through, none otherwise. */
  function ManifestOf(f: Entry): seq<Service> {
    if IsManifestName(f.name) && f.lines.Some? then [Manifest(f.lines.value)] else []
  }

  // ----- the service scan -----

  /**
   * `getServices(dir, services)`: the list after the call, or None when it
   * throws NullPointerException on a null listing (of `dir` or of a
   * readable entry that is not a file). Readable files are taken in
   * listing order and readable non-files are scanned where they stand.
   */
  function Scan(dir: Entry, acc: seq<Service>): Option<seq<Service>>
    decreases dir, 1
  {
    if !dir.listable then None else ScanFrom(dir, 0, acc)
  }

  /** The loop of `getServices` from entry `i` of the listing on, with `acc` collected so far. */
  function ScanFrom(dir: Entry, i: nat, acc: seq<Service>): Option<seq<Service>>
    requires dir.listable && i <= |dir.children|
    decreases dir, 0, |dir.children| - i
  {
    var contents := dir.children;
    if i == |contents| then Some(acc)
    else
      var c := contents[i];
      assert c in contents;
      if !c.canRead then ScanFrom(dir, i + 1, acc)
      else if c.isFile then ScanFrom(dir, i + 1, acc + ManifestOf(c))
      else match Scan(c, acc)
        case None => None
        case Some(acc') => ScanFrom(dir, i + 1, acc')
  }

  /** `getServices` itself: appends to the list it is given, recursing into readable entries that are not files. */
  method GetServices(directory: Entry, services: seq<Service>) returns (r: Option<seq<Service>>)
    ensures r == Scan(directory, services)
    decreases directory
  {
    if !directory.listable {
      return None;
    }
    var contents := directory.children;
    var acc := services;
    var i := 0;
    while i < |contents|
      invariant 0 <= i <= |contents|
      invariant ScanFrom(directory, i, acc) == Scan(directory, services)
    {
      var content := contents[i];
      assert content in contents;
      if content.canRead {
        if content.isFile {
          if IsManifestName(content.name) && content.lines.Some? {
            var s := ReadManifest(content.lines.value);
            acc := acc + [s];
          } else {
            assert acc + ManifestOf(content) == acc;
          }
        } else {
          var sub := GetServices(content, acc);
          if sub.None? {
            return None;
          }
          acc := sub.value;
        }
      }
      i := i + 1;
    }
    r := Some(acc);
  }

  /**
   * `f` is reached by the scan of `dir`: it is listed in `dir`, or in a
   * readable non-file entry the scan descends into.
   */
  ghost predicate Reaches(dir: Entry, f: Entry)
    decreases dir
  {
    dir.listable &&
    exists i :: 0 <= i < |dir.children| &&
      (dir.children[i] == f ||
       (dir.children[i].canRead && !dir.children[i].isFile && Reaches(dir.children[i], f)))
  }

  /** `s` is the service of a readable manifest the scan of `dir` reaches. */
  ghost predicate FoundIn(dir: Entry, s: Service) {
    exists f :: Reaches(dir, f) && f.canRead && f.isFile && ManifestOf(f) == [s]
  }

  /**
   * The scan only appends to the list it is given, and everything it
   * appends is read from a readable `.is` file in the tree.
   */
  lemma {:induction false} ScanFinds(dir: Entry, acc: seq<Service>)
    ensures var r := Scan(dir, acc);
      r.Some? ==>
        && |acc| <= |r.value| && r.value[..|acc|] == acc
        && forall k :: |acc| <= k < |r.value| ==> FoundIn(dir, r.value[k])
    decreases dir, 1
  {
    if dir.listable {
      ScanFromFinds(dir, 0, acc);
    }
  }

  lemma {:induction false} ScanFromFinds(dir: Entry, i: nat, acc: seq<Service>)
    requires dir.listable && i <= |dir.children|
    ensures var r := ScanFrom(dir, i, acc);
      r.Some? ==>
        && |acc| <= |r.value| && r.value[..|acc|] == acc
        && forall k :: |acc| <= k < |r.value| ==> FoundIn(dir, r.value[k])
    decreases dir, 0, |dir.children| - i
  {
    var contents := dir.children;
    if i < |contents| {
      var c := contents[i];
      assert c in contents;
      if !c.canRead {
        ScanFromFinds(dir, i + 1, acc);
      } else if c.isFile {
        var acc' := acc + ManifestOf(c);
        ScanFromFinds(dir, i + 1, acc');
        var r := ScanFrom(dir, i, acc);
        if r.Some? {
          assert r.value[..|acc|] == r.value[..|acc'|][..|acc|];
          forall k | |acc| <= k < |r.value| ensures FoundIn(dir, r.value[k]) {
            if k < |acc'| {
              assert r.value[k] == acc'[k] && ManifestOf(c) == [r.value[k]];
              assert Reaches(dir, c) by { assert contents[i] == c; }
            }
          }
        }
      } else {
        ScanFinds(c, acc);
        match Scan(c, acc)
        case None =>
        case Some(acc') =>
          ScanFromFinds(dir, i + 1, acc');
          var r := ScanFrom(dir, i, acc);
          if r.Some? {
          assert r.value[..|acc|] == r.value[..|acc'|][..|acc|];
          forall k | |acc| <= k < |r.value| ensures FoundIn(dir, r.value[k]) {
            if k < |acc'| {
              assert r.value[k] == acc'[k];
              var f :| Reaches(c, f) && f.canRead && f.isFile && ManifestOf(f) == [r.value[k]];
              assert Reaches(dir, f) by { assert contents[i] == c; }
            }
          }
          }
      }
    }
  }

  /** The scan keeps what it was given in front of what it appends. */
  lemma {:induction false} ScanGrows(dir: Entry, acc: seq<Service>)
    ensures var r := Scan(dir, acc); r.Some? ==> |acc| <= |r.value| && r.value[..|acc|] == acc
    decreases dir, 1
  {
    if dir.listable {
      ScanFromGrows(dir, 0, acc);
    }
  }

  lemma {:induction false} ScanFromGrows(dir: Entry, i: nat, acc: seq<Service>)
    requires dir.listable && i <= |dir.children|
    ensures var r := ScanFrom(dir, i, acc); r.Some? ==> |acc| <= |r.value| && r.value[..|acc|] == acc
    decreases dir, 0, |dir.children| - i
  {
    if i < |dir.children| {
      var c := dir.children[i];
      assert c in dir.children;
      if !c.canRead {
        ScanFromGrows(dir, i + 1, acc);
      } else if c.isFile {
        ScanFromGrows(dir, i + 1, acc + ManifestOf(c));
        var r := ScanFrom(dir, i, acc);
        if r.Some? {
          assert r.value[..|acc|] == r.value[..|acc + ManifestOf(c)|][..|acc|];
        }
      } else {
        ScanGrows(c, acc);
        if Scan(c, acc).Some? {
          var acc' := Scan(c, acc).value;
          ScanFromGrows(dir, i + 1, acc');
          var r := ScanFrom(dir, i, acc);
          if r.Some? {
            assert r.value[..|acc|] == r.value[..|acc'|][..|acc|];
          }
        }
      }
    }
  }

  /** `f` is listed in `dir` at position `i` or later, or is reached through such an entry. */
  ghost predicate ReachesFrom(dir: Entry, i: nat, f: Entry)
    requires dir.listable
  {
    exists j :: i <= j < |dir.children| &&
      (dir.children[j] == f || (dir.children[j].canRead && !dir.children[j].isFile && Reaches(dir.children[j], f)))
  }

  /**
   * A scan that finishes misses no manifest: every readable `.is` file it
   * reaches has its service among those appended.
   */
  lemma {:induction false} ScanComplete(dir: Entry, acc: seq<Service>, f: Entry)
    requires Scan(dir, acc).Some? && Reaches(dir, f) && f.canRead && f.isFile && ManifestOf(f) != []
    ensures |acc| <= |Scan(dir, acc).value| && ManifestOf(f)[0] in Scan(dir, acc).value[|acc|..]
    decreases dir, 1
  {
    ScanFromComplete(dir, 0, acc, f);
  }

  lemma {:induction false} ScanFromComplete(dir: Entry, i: nat, acc: seq<Service>, f: Entry)
    requires dir.listable && i <= |dir.children| && ScanFrom(dir, i, acc).Some?
    requires ReachesFrom(dir, i, f) && f.canRead && f.isFile && ManifestOf(f) != []
    ensures |acc| <= |ScanFrom(dir, i, acc).value| && ManifestOf(f)[0] in ScanFrom(dir, i, acc).value[|acc|..]
    decreases dir, 0, |dir.children| - i
  {
    var contents := dir.children;
    var c := contents[i];
    assert c in contents;
    var j :| i <= j < |contents| &&
      (contents[j] == f || (contents[j].canRead && !contents[j].isFile && Reaches(contents[j], f)));
    var x := ManifestOf(f)[0];
    if !c.canRead {
      assert ReachesFrom(dir, i + 1, f) by { assert j != i; }
      ScanFromComplete(dir, i + 1, acc, f);
    } else if c.isFile {
      var acc' := acc + ManifestOf(c);
      var r := ScanFrom(dir, i + 1, acc').value;
      assert ScanFrom(dir, i, acc) == ScanFrom(dir, i + 1, acc');
      ScanFromGrows(dir, i + 1, acc');
      if j == i {
        assert x in acc'[|acc|..] by { assert acc'[|acc|] == x; }
        InPrefixTail(r, acc, acc', x);
      } else {
        assert ReachesFrom(dir, i + 1, f);
        ScanFromComplete(dir, i + 1, acc', f);
        InLaterTail(r, acc, acc', x);
      }
    } else {
      var acc' := Scan(c, acc).value;
      var r := ScanFrom(dir, i + 1, acc').value;
      assert ScanFrom(dir, i, acc) == ScanFrom(dir, i + 1, acc');
      ScanGrows(c, acc);
      ScanFromGrows(dir, i + 1, acc');
      if j == i {
        ScanComplete(c, acc, f);
        InPrefixTail(r, acc, acc', x);
      } else {
        assert ReachesFrom(dir, i + 1, f);
        ScanFromComplete(dir, i + 1, acc', f);
        InLaterTail(r, acc, acc', x);
      }
    }
  }

  /** What was appended to `acc` to make `acc'` is still there after `acc'` grows into `r`. */
  lemma InPrefixTail<T>(r: seq<T>, acc: seq<T>, acc': seq<T>, x: T)
    requires |acc| <= |acc'| <= |r| && r[..|acc'|] == acc' && x in acc'[|acc|..]
    ensures x in r[|acc|..]
  {
    var k :| |acc| <= k < |acc'| && acc'[k] == x;
    assert r[k] == x;
    assert r[|acc|..][k - |acc|] == x;
  }

  /** What was appended after `acc'` is also appended after the shorter `acc`. */
  lemma InLaterTail<T>(r: seq<T>, acc: seq<T>, acc': seq<T>, x: T)
    requires |acc| <= |acc'| <= |r| && x in r[|acc'|..]
    ensures x in r[|acc|..]
  {
    var k :| |acc'| <= k < |r| && r[k] == x;
    assert r[|acc|..][k - |acc|] == x;
  }

  // ----- extensions and the service chosen for a file -----

  /**
   * The extension `createIndex` looks up: the text after the last `.` of
   * the name, lowercased; None for a name with no `.`.
   */
  function Extension(name: string): (r: Option<string>)
    ensures r.None? <==> '.' !in name
    ensures r.Some? ==>
      var n := |name| - |r.value|;
      1 <= n && name[n - 1] == '.' && '.' !in name[n..] && r.value == ToLower(name[n..])
  {
    var mLoc := LastIndexOf(name, '.') + 1;
    if mLoc == 0 then None else Some(ToLower(name[mLoc..]))
  }

  /**
   * `ParserService.checkExtension`: whether the service lists the
   * extension (the caller has already lowercased it).
   */
  predicate CheckExtension(s: Service, ext: string) {
    ext in s.extensions
  }

  /** The position of the last service among `services` that accepts `ext`. */
  function LastMatch(services: seq<Service>, ext: string): (r: Option<nat>)
    ensures r.None? <==> forall j :: 0 <= j < |services| ==> !CheckExtension(services[j], ext)
    ensures r.Some? ==>
      && r.value < |services| && CheckExtension(services[r.value], ext)
      && forall j :: r.value < j < |services| ==> !CheckExtension(services[j], ext)
  {
    if services == [] then None
    else if CheckExtension(services[|services| - 1], ext) then Some(|services| - 1)
    else
      var r := LastMatch(services[..|services| - 1], ext);
      assert forall j :: 0 <= j < |services| - 1 ==> services[..|services| - 1][j] == services[j];
      r
  }

  /**
   * The name `createIndex` settles on for a file called `name`: that of
   * the last service accepting its extension (null when that service has
   * no name), or null when none does or the name has no extension.
   */
  function ChosenName(name: string, services: seq<Service>): Option<string> {
    match Extension(name)
    case None => None
    case Some(ext) =>
      match LastMatch(services, ext)
      case None => None
      case Some(j) => services[j].name
  }

  /** Asking one more service: it takes over the name exactly when it accepts the extension. */
  lemma ChosenNameStep(name: string, services: seq<Service>, j: nat)
    requires j < |services|
    ensures ChosenName(name, services[..j + 1]) ==
      if Extension(name).Some? && CheckExtension(services[j], Extension(name).value) then services[j].name
      else ChosenName(name, services[..j])
  {
    assert services[..j + 1][..j] == services[..j];
  }

  /** The service loop of `createIndex`: every service is asked, and each one that accepts overwrites the name. */
  method ServiceFor(name: string, services: seq<Service>) returns (serviceName: Option<string>)
    ensures serviceName == ChosenName(name, services)
  {
    serviceName := None;
    var j := 0;
    while j < |services|
      invariant 0 <= j <= |services|
      invariant serviceName == ChosenName(name, services[..j])
    {
      ChosenNameStep(name, services, j);
      var mLoc := LastIndexOf(name, '.') + 1;
      if mLoc != 0 {
        var found := CheckExtension(services[j], ToLower(name[mLoc..]));
        if found {
          serviceName := services[j].name;
        }
      }
      j := j + 1;
    }
    assert services[..j] == services;
  }

  /**
   * The last match wins: the chosen name is that of a service accepting
   * the extension after which no service accepts it.
   */
  lemma LastMatchWins(name: string, services: seq<Service>, j: nat)
    requires j < |services| && Extension(name).Some? && CheckExtension(services[j], Extension(name).value)
    requires forall k :: j < k < |services| ==> !CheckExtension(services[k], Extension(name).value)
    ensures ChosenName(name, services) == services[j].name
  {
  }
}
