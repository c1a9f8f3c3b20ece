/**
 The directory walk of sem1/lab3/task3_1/reverse.c over a file system of path strings, and the mirrored
 tree that it leaves behind.
 */
module ReverseTree {
  import opened ReverseFiles

  // ------------------------------------------------------------ trees and their mirrors

  datatype Tree = RegularFile(content: seq<Byte>) | Folder(entries: map<string, Tree>) | SpecialFile

  function ReversedNames(names: set<string>): set<string> {
    set n | n in names :: Reversed(n)
  }

  /** Every file is copied and every folder mirrored under the reversed name; anything else is skipped. */
  function Mirror(tree: Tree): Tree {
    match tree
    case RegularFile(content) => RegularFile(Copied(content))
    case Folder(entries) =>
      Folder(map n | n in ReversedNames(entries.Keys) && Reversed(n) in entries && !entries[Reversed(n)].SpecialFile?
        :: Mirror(entries[Reversed(n)]))
    case SpecialFile => SpecialFile
  }

  lemma MirrorEntry(entries: map<string, Tree>, n: string)
    ensures n in Mirror(Folder(entries)).entries <==> Reversed(n) in entries && !entries[Reversed(n)].SpecialFile?
    ensures n in Mirror(Folder(entries)).entries ==>
      Mirror(Folder(entries)).entries[n] == Mirror(entries[Reversed(n)])
  {
    ReversedTwice(n);
  }

  lemma MirrorKeepsKind(tree: Tree)
    ensures Mirror(tree).SpecialFile? == tree.SpecialFile? && Mirror(tree).Folder? == tree.Folder?
  {
  }

  /** No file of two bytes, and nothing that is neither file nor folder inside a folder. */
  predicate Intact(tree: Tree) {
    match tree
    case RegularFile(content) => |content| != 2
    case Folder(entries) => forall n | n in entries :: !entries[n].SpecialFile? && Intact(entries[n])
    case SpecialFile => true
  }

  lemma EntryMirroredTwice(entries: map<string, Tree>, n: string)
    ensures var twice := Mirror(Mirror(Folder(entries))).entries;
      && (n in twice <==> n in entries && !entries[n].SpecialFile?)
      && (n in twice ==> twice[n] == Mirror(Mirror(entries[n])))
  {
    ReversedTwice(n);
    MirrorEntry(entries, Reversed(n));
    MirrorEntry(Mirror(Folder(entries)).entries, n);
    if n in entries {
      MirrorKeepsKind(entries[n]);
    }
  }

  lemma SameEntriesIffIntact(entries: map<string, Tree>, twice: map<string, Tree>)
    requires forall n :: n in twice <==> n in entries && !entries[n].SpecialFile?
    requires forall n | n in twice :: twice[n] == entries[n] <==> Intact(entries[n])
    ensures twice == entries <==> Intact(Folder(entries))
  {
    if Intact(Folder(entries)) {
      assert forall n | n in entries :: n in twice;
    }
    if twice == entries {
      assert forall n | n in entries :: n in twice;
    }
  }

  /** Mirroring is its own inverse on exactly the intact trees. */
  lemma {:induction false} MirrorTwiceIffIntact(tree: Tree)
    ensures Mirror(Mirror(tree)) == tree <==> Intact(tree)
  {
    match tree
    case RegularFile(content) =>
      CopiedTwiceIff(content);
    case SpecialFile =>
    case Folder(entries) =>
      var twice := Mirror(Mirror(tree)).entries;
      forall n: string
        ensures n in twice <==> n in entries && !entries[n].SpecialFile?
        ensures n in twice ==> (twice[n] == entries[n] <==> Intact(entries[n]))
      {
        EntryMirroredTwice(entries, n);
        if n in entries {
          MirrorTwiceIffIntact(entries[n]);
        }
      }
      SameEntriesIffIntact(entries, twice);
  }

  // ------------------------------------------------------------ trees laid over others

  /** What is there after `new` has been written where `old` was: files replace files and folders are
      merged; a file is not written over a folder, nor a folder made where there is something else. */
  function Overlay(there: Tree, laid: Tree): (tree: Tree)
    ensures tree.Folder? == there.Folder?
    decreases laid
  {
    if laid.Folder? && there.Folder? then
      Folder(map n | n in there.entries.Keys + laid.entries.Keys :: OverlaidEntry(there.entries, laid, n))
    else if laid.RegularFile? && there.RegularFile? then laid
    else there
  }

  function OverlaidEntry(entries: map<string, Tree>, laid: Tree, n: string): Tree
    requires laid.Folder? && (n in entries || n in laid.entries)
    decreases laid, 0
  {
    if n !in laid.entries then entries[n]
    else if n in entries then Overlay(entries[n], laid.entries[n])
    else laid.entries[n]
  }

  /** On an empty folder, just the new one is left. */
  lemma OverlayOnNothing(laid: Tree)
    requires laid.Folder?
    ensures Overlay(Folder(map[]), laid) == laid
  {
    assert Overlay(Folder(map[]), laid).entries == laid.entries;
  }

  lemma {:induction false} OverlayOnItself(tree: Tree)
    ensures Overlay(tree, tree) == tree
    decreases tree
  {
    if tree.Folder? {
      forall n | n in tree.entries
        ensures Overlay(tree, tree).entries[n] == tree.entries[n]
      {
        OverlayOnItself(tree.entries[n]);
      }
      assert Overlay(tree, tree).entries == tree.entries;
    }
  }

  /** Writing the same tree a second time changes nothing. */
  lemma {:induction false} OverlayTwice(there: Tree, laid: Tree)
    ensures Overlay(Overlay(there, laid), laid) == Overlay(there, laid)
    decreases laid
  {
    var once := Overlay(there, laid);
    if laid.Folder? && there.Folder? {
      forall n | n in once.entries
        ensures OverlaidEntry(once.entries, laid, n) == once.entries[n]
      {
        assert once.entries[n] == OverlaidEntry(there.entries, laid, n);
        if n in laid.entries {
          if n in there.entries {
            OverlayTwice(there.entries[n], laid.entries[n]);
          } else {
            OverlayOnItself(laid.entries[n]);
          }
        }
      }
      assert Overlay(once, laid).entries == once.entries;
    }
  }

  /** One more name laid over a folder. */
  lemma OverlayGainsEntry(there: map<string, Tree>, laid: map<string, Tree>, n: string, tree: Tree)
    requires n !in laid
    ensures var before := Overlay(Folder(there), Folder(laid)).entries;
      && (n in before <==> n in there) && (n in before ==> before[n] == there[n])
      && Overlay(Folder(there), Folder(laid[n := tree])).entries ==
           before[n := if n in there then Overlay(there[n], tree) else tree]
  {
    var before := Overlay(Folder(there), Folder(laid)).entries;
    var after := Overlay(Folder(there), Folder(laid[n := tree])).entries;
    forall m | m in after && m != n
      ensures m in before && after[m] == before[m]
    {
      assert after[m] == OverlaidEntry(there, Folder(laid[n := tree]), m);
      assert before[m] == OverlaidEntry(there, Folder(laid), m);
    }
    assert after[n] == OverlaidEntry(there, Folder(laid[n := tree]), n);
  }

  /** What a path of names leads to. */
  function At(tree: Tree, path: seq<string>): (found: seq<Tree>)
    ensures |found| <= 1
    decreases |path|
  {
    if path == [] then [tree]
    else if tree.Folder? && path[0] in tree.entries && !tree.entries[path[0]].SpecialFile?
      then At(tree.entries[path[0]], path[1..])
    else []
  }

  function EachReversed(path: seq<string>): seq<string> {
    if path == [] then [] else [Reversed(path[0])] + EachReversed(path[1..])
  }

  /** Whatever a path leads to, its mirror is where the path of reversed names leads, and nothing else
      is anywhere. */
  lemma {:induction false} MirrorMovesEverything(tree: Tree, path: seq<string>)
    ensures |At(Mirror(tree), EachReversed(path))| == |At(tree, path)|
    ensures |At(tree, path)| == 1 ==> At(Mirror(tree), EachReversed(path))[0] == Mirror(At(tree, path)[0])
    decreases |path|
  {
    if path != [] && tree.Folder? {
      var n := path[0];
      ReversedTwice(n);
      MirrorEntry(tree.entries, Reversed(n));
      assert EachReversed(path)[0] == Reversed(n) && EachReversed(path)[1..] == EachReversed(path[1..]);
      if n in tree.entries && !tree.entries[n].SpecialFile? {
        MirrorKeepsKind(tree.entries[n]);
        MirrorMovesEverything(tree.entries[n], path[1..]);
      }
    }
  }

  // ------------------------------------------------------------ paths

  datatype Node = Regular(content: seq<Byte>) | Directory | Special

  type Disk = map<string, Node>

  function Join(path: string, name: string): string {
    path + "/" + name
  }

  predicate Below(path: string, q: string) {
    |path| + 1 < |q| && q[..|path| + 1] == path + "/"
  }

  predicate Within(path: string, q: string) {
    q == path || Below(path, q)
  }

  predicate GoodName(name: string) {
    name != "" && '/' !in name && name != "." && name != ".."
  }

  lemma ReversedNameIsGood(name: string)
    requires GoodName(name)
    ensures GoodName(Reversed(name))
  {
    NoSlashInReversed(name);
    ReversedTwice(name);
    assert Reversed(".") == "." && Reversed("..") == "..";
  }

  lemma WithinChildIsBelow(path: string, name: string, q: string)
    requires name != "" && Within(Join(path, name), q)
    ensures Below(path, q)
  {
    if Below(Join(path, name), q) {
      assert q[..|path| + 1] == q[..|path| + 1 + |name| + 1][..|path| + 1];
      assert Join(path, name) + "/" == path + "/" + (name + "/");
    } else {
      assert q[..|path| + 1] == path + "/";
    }
  }

  lemma CharWithin(path: string, q: string, i: nat)
    requires i < |path|
    ensures Within(path, q) ==> i < |q| && q[i] == path[i]
  {
    if Below(path, q) {
      assert q[i] == q[..|path| + 1][i];
    }
  }

  lemma ShorterNameApart(path: string, a: string, b: string, q: string)
    requires GoodName(a) && GoodName(b) && |a| < |b|
    requires Within(Join(path, a), q)
    ensures !Within(Join(path, b), q)
  {
    var at := |path| + 1 + |a|;
    CharWithin(Join(path, b), q, at);
    assert Join(path, b)[at] == b[|a|] != '/';
    if Below(Join(path, a), q) {
      assert q[at] == q[..at + 1][at] == '/';
    }
  }

  /** Two names of one directory have nothing in common below them. */
  lemma NamesApart(path: string, a: string, b: string, q: string)
    requires GoodName(a) && GoodName(b)
    requires Within(Join(path, a), q) && Within(Join(path, b), q)
    ensures a == b
  {
    if |a| < |b| {
      ShorterNameApart(path, a, b, q);
    }
    if |b| < |a| {
      ShorterNameApart(path, b, a, q);
    }
    forall i | 0 <= i < |a|
      ensures a[i] == b[i]
    {
      CharWithin(Join(path, a), q, |path| + 1 + i);
      CharWithin(Join(path, b), q, |path| + 1 + i);
    }
  }

  /** snprintf's "%s/%s" into a buffer of `len` bytes: what does not fit is cut off. */
  function GetPath(path: string, name: string, len: nat): string
    requires len > 0
  {
    var full := Join(path, name);
    if |full| < len then full else full[..len - 1]
  }

  // ------------------------------------------------------------ trees on the disk

  /** What the disk holds at the path, and all it holds below it, is the tree. */
  ghost predicate Shows(disk: Disk, path: string, tree: Tree)
    decreases tree
  {
    path in disk &&
    match tree
    case RegularFile(content) => disk[path] == Regular(content)
    case SpecialFile => disk[path] == Special
    case Folder(entries) =>
      && disk[path] == Directory && Covered(disk, path, entries.Keys)
      && forall n | n in entries :: GoodName(n) && Shows(disk, Join(path, n), entries[n])
  }

  ghost predicate Covered(disk: Disk, path: string, names: set<string>) {
    forall q {:trigger Below(path, q)} | q in disk && Below(path, q) ::
      exists n :: n in names && Within(Join(path, n), q)
  }

  ghost predicate AgreeWithin(before: Disk, after: Disk, path: string) {
    forall q | Within(path, q) :: (q in before <==> q in after) && (q in before ==> before[q] == after[q])
  }

  ghost predicate AgreeOutside(before: Disk, after: Disk, path: string) {
    forall q | !Within(path, q) :: (q in before <==> q in after) && (q in before ==> before[q] == after[q])
  }

  lemma {:induction false} ShowsFrame(before: Disk, after: Disk, path: string, tree: Tree)
    requires Shows(before, path, tree) && AgreeWithin(before, after, path)
    ensures Shows(after, path, tree)
    decreases tree
  {
    if tree.Folder? {
      forall n | n in tree.entries
        ensures Shows(after, Join(path, n), tree.entries[n])
      {
        forall q | Within(Join(path, n), q)
          ensures Within(path, q)
        {
          WithinChildIsBelow(path, n, q);
        }
        ShowsFrame(before, after, Join(path, n), tree.entries[n]);
      }
    }
  }

  lemma EqualLengthsApart(a: string, b: string, q: string)
    requires |a| == |b| && Within(a, q) && Within(b, q)
    ensures a == b
  {
    forall i | 0 <= i < |a|
      ensures a[i] == b[i]
    {
      CharWithin(a, q, i);
      CharWithin(b, q, i);
    }
  }

  /** Changes under one path leave another of the same length alone. */
  lemma OtherPathKept(before: Disk, after: Disk, path: string, other: string, tree: Tree)
    requires Shows(before, path, tree) && AgreeOutside(before, after, other)
    requires |path| == |other| && path != other
    ensures Shows(after, path, tree)
  {
    forall q | Within(path, q)
      ensures !Within(other, q)
    {
      if Within(other, q) {
        EqualLengthsApart(path, other, q);
      }
    }
    ShowsFrame(before, after, path, tree);
  }

  lemma AgreeOutsideParent(before: Disk, after: Disk, path: string, name: string)
    requires name != "" && AgreeOutside(before, after, Join(path, name))
    ensures AgreeOutside(before, after, path)
  {
    forall q | !Within(path, q)
      ensures !Within(Join(path, name), q)
    {
      if Within(Join(path, name), q) {
        WithinChildIsBelow(path, name, q);
      }
    }
  }

  lemma AgreeOutsideTrans(first: Disk, second: Disk, third: Disk, path: string)
    requires AgreeOutside(first, second, path) && AgreeOutside(second, third, path)
    ensures AgreeOutside(first, third, path)
  {
    forall q | !Within(path, q)
      ensures (q in first <==> q in third) && (q in first ==> first[q] == third[q])
    {
      assert q in first <==> q in second;
    }
  }

  lemma SiblingsKept(before: Disk, after: Disk, path: string, m: string, name: string, tree: Tree)
    requires GoodName(m) && GoodName(name) && m != name
    requires Shows(before, Join(path, m), tree) && AgreeOutside(before, after, Join(path, name))
    ensures Shows(after, Join(path, m), tree)
  {
    forall q | Within(Join(path, m), q)
      ensures !Within(Join(path, name), q)
    {
      if Within(Join(path, name), q) {
        NamesApart(path, m, name, q);
      }
    }
    ShowsFrame(before, after, Join(path, m), tree);
  }

  /** A name in a folder, new or not, puts its entry into what the folder shows. */
  lemma FolderGainsEntry(before: Disk, after: Disk, path: string, entries: map<string, Tree>, name: string, tree: Tree)
    requires Shows(before, path, Folder(entries)) && GoodName(name)
    requires Shows(after, Join(path, name), tree) && AgreeOutside(before, after, Join(path, name))
    ensures Shows(after, path, Folder(entries[name := tree]))
  {
    var more := entries[name := tree];
    forall m | m in entries && m != name
      ensures Shows(after, Join(path, m), entries[m])
    {
      SiblingsKept(before, after, path, m, name, entries[m]);
    }
    assert !Within(Join(path, name), path);
    forall q | q in after && Below(path, q)
      ensures exists n :: n in more && Within(Join(path, n), q)
    {
      if Within(Join(path, name), q) {
        assert name in more;
      } else {
        assert q in before;
        var n :| n in entries && Within(Join(path, n), q);
        assert n in more;
      }
    }
  }

  // ------------------------------------------------------------ the walk

  const SUCCESS := 1
  const ALREADY_EXIST := 0
  const FILE_OPEN_ERROR := 9
  const REVERSE_ERROR := 10

  /** What readdir lists, in no particular order. */
  function Listing(disk: Disk, path: string): set<string> {
    (set q | q in disk && Below(path, q) && '/' !in q[|path| + 1..] :: q[|path| + 1..]) + {".", ".."}
  }

  lemma ChildIsListed(disk: Disk, path: string, name: string)
    requires GoodName(name)
    ensures name in Listing(disk, path) <==> Join(path, name) in disk
  {
    var q := Join(path, name);
    assert q[..|path| + 1] == path + "/" && q[|path| + 1..] == name;
    if name in Listing(disk, path) {
      var r :| r in disk && Below(path, r) && r[|path| + 1..] == name;
      assert r == r[..|path| + 1] + r[|path| + 1..] == q;
    }
  }

  lemma BelowChildHasSlash(path: string, m: string, q: string)
    requires Below(Join(path, m), q)
    ensures '/' in q[|path| + 1..]
  {
    var at := |path| + 1 + |m|;
    assert q[..at + 1][at] == '/';
    assert q[|path| + 1..][|m|] == q[at];
  }

  lemma ListedIsEntry(disk: Disk, path: string, entries: map<string, Tree>, name: string)
    requires Shows(disk, path, Folder(entries))
    requires name in Listing(disk, path) && name != "." && name != ".."
    ensures name in entries
  {
    var q :| q in disk && Below(path, q) && '/' !in q[|path| + 1..] && q[|path| + 1..] == name;
    var m :| m in entries && Within(Join(path, m), q);
    if Below(Join(path, m), q) {
      BelowChildHasSlash(path, m, q);
    }
    assert q[|path| + 1..] == m;
  }

  /** The names listed are the folder's entries and the two dots. */
  lemma ListingOfFolder(disk: Disk, path: string, entries: map<string, Tree>)
    requires Shows(disk, path, Folder(entries))
    ensures Listing(disk, path) == entries.Keys + {".", ".."}
  {
    forall n | n in entries
      ensures n in Listing(disk, path)
    {
      ChildIsListed(disk, path, n);
    }
    forall n | n in Listing(disk, path) && n != "." && n != ".."
      ensures n in entries
    {
      ListedIsEntry(disk, path, entries, n);
    }
  }

  /** The buffer that is sized for the source path holds the destination path exactly if that is no
      longer; reversing keeps the length of names. */
  lemma PathFitsIff(srcPath: string, reversedPath: string, name: string)
    ensures GetPath(reversedPath, Reversed(name), |srcPath| + |name| + 2) == Join(reversedPath, Reversed(name))
      <==> |reversedPath| <= |srcPath|
  {
  }

  /** The entries that are no longer to do. */
  function Done(entries: map<string, Tree>, todo: set<string>): map<string, Tree> {
    map n | n in entries && n !in todo :: entries[n]
  }

  /** One more name done is one more name in the mirror, unless it is of a special file. */
  lemma MirrorOfDone(entries: map<string, Tree>, todo: set<string>, name: string)
    requires name in todo && name in entries
    ensures var before := Mirror(Folder(Done(entries, todo))).entries;
      && Reversed(name) !in before
      && Mirror(Folder(Done(entries, todo - {name}))).entries ==
        if entries[name].SpecialFile? then before else before[Reversed(name) := Mirror(entries[name])]
  {
    var before := Mirror(Folder(Done(entries, todo))).entries;
    var after := Mirror(Folder(Done(entries, todo - {name}))).entries;
    ReversedTwice(name);
    forall n: string
      ensures Reversed(Reversed(n)) == n
      ensures n in before <==> Reversed(n) in Done(entries, todo) && !entries[Reversed(n)].SpecialFile?
      ensures n in before ==> before[n] == Mirror(entries[Reversed(n)])
      ensures n in after <==> Reversed(n) in Done(entries, todo - {name}) && !entries[Reversed(n)].SpecialFile?
      ensures n in after ==> after[n] == Mirror(entries[Reversed(n)])
    {
      ReversedTwice(n);
      MirrorEntry(Done(entries, todo), n);
      MirrorEntry(Done(entries, todo - {name}), n);
    }
  }

  lemma NothingThere(disk: Disk, path: string, entries: map<string, Tree>, name: string)
    requires Shows(disk, path, Folder(entries)) && GoodName(name) && name !in entries
    ensures forall q | Within(Join(path, name), q) :: q !in disk
  {
    forall q | Within(Join(path, name), q)
      ensures q !in disk
    {
      WithinChildIsBelow(path, name, q);
      if q in disk {
        var m :| m in entries && Within(Join(path, m), q);
        NamesApart(path, m, name, q);
      }
    }
  }

  /** The folder to be mirrored, where it is, where its mirror goes, and what is there to begin with. */
  datatype Job = Job(srcPath: string, reversedPath: string, tree: Tree, base: Tree)

  predicate Proper(job: Job) {
    && job.tree.Folder? && job.base.Folder?
    && |job.srcPath| == |job.reversedPath| && job.srcPath != job.reversedPath
  }

  function Dest(job: Job, name: string): string {
    Join(job.reversedPath, Reversed(name))
  }

  /** What the destination shows when these names are still to do. */
  function Shown(job: Job, todo: set<string>): Tree
    requires Proper(job)
  {
    Overlay(job.base, Mirror(Folder(Done(job.tree.entries, todo))))
  }

  /** What is at an entry's destination before its turn. */
  function BaseOf(job: Job, name: string): Tree
    requires Proper(job)
  {
    if Reversed(name) in job.base.entries then job.base.entries[Reversed(name)] else Folder(map[])
  }

  /** What is there after it. */
  function Placed(job: Job, name: string): Tree
    requires Proper(job) && name in job.tree.entries
  {
    if Reversed(name) in job.base.entries then
      Overlay(job.base.entries[Reversed(name)], Mirror(job.tree.entries[name]))
    else Mirror(job.tree.entries[name])
  }

  lemma ShownAfterEntry(job: Job, todo: set<string>, name: string)
    requires Proper(job) && name in todo && name in job.tree.entries
    ensures var before, n := Shown(job, todo).entries, Reversed(name);
      && (n in before <==> n in job.base.entries) && (n in before ==> before[n] == job.base.entries[n])
      && Shown(job, todo - {name}).entries ==
        if job.tree.entries[name].SpecialFile? then before else before[n := Placed(job, name)]
  {
    hide Mirror, Done, Overlay;
    MirrorOfDone(job.tree.entries, todo, name);
    MirrorKeepsKind(Folder(Done(job.tree.entries, todo)));
    MirrorKeepsKind(Folder(Done(job.tree.entries, todo - {name})));
    var mirror := Mirror(Folder(Done(job.tree.entries, todo)));
    var next := Mirror(Folder(Done(job.tree.entries, todo - {name})));
    assert mirror == Folder(mirror.entries) && next == Folder(next.entries) && job.base == Folder(job.base.entries);
    OverlayGainsEntry(job.base.entries, mirror.entries, Reversed(name), Mirror(job.tree.entries[name]));
  }

  /** How far the walk of a folder has come: the source is as it was, the destination shows the mirror of
      what is done over what was there, and the rest of the disk is untouched. */
  ghost predicate Walked(start: Disk, now: Disk, job: Job, todo: set<string>)
    requires Proper(job)
  {
    && Shows(now, job.srcPath, job.tree)
    && Shows(now, job.reversedPath, Shown(job, todo))
    && AgreeOutside(start, now, job.reversedPath)
  }

  lemma WalkBegins(disk: Disk, job: Job, todo: set<string>)
    requires Proper(job) && job.tree.entries.Keys <= todo
    requires Shows(disk, job.srcPath, job.tree) && Shows(disk, job.reversedPath, job.base)
    ensures Walked(disk, disk, job, todo)
  {
    assert Done(job.tree.entries, todo) == map[];
    assert Mirror(Folder(map[])).entries == map[];
    assert Shown(job, todo).entries == job.base.entries;
  }

  lemma WalkSkips(start: Disk, now: Disk, job: Job, todo: set<string>, name: string)
    requires Proper(job) && Walked(start, now, job, todo)
    requires name in todo && (name in job.tree.entries && GoodName(name) ==> job.tree.entries[name].SpecialFile?)
    ensures Walked(start, now, job, todo - {name})
  {
    hide Overlay, Mirror, Covered, AgreeOutside;
    if name in job.tree.entries {
      ShownAfterEntry(job, todo, name);
    } else {
      assert Done(job.tree.entries, todo - {name}) == Done(job.tree.entries, todo);
    }
  }

  lemma WalkEnds(start: Disk, now: Disk, job: Job)
    requires Proper(job) && Walked(start, now, job, {})
    ensures Shows(now, job.reversedPath, Overlay(job.base, Mirror(job.tree)))
    ensures AgreeOutside(start, now, job.reversedPath)
  {
    assert Done(job.tree.entries, {}) == job.tree.entries;
  }

  /** What is at an entry's destination when its turn comes. */
  lemma DestinationBefore(start: Disk, now: Disk, job: Job, todo: set<string>, name: string)
    requires Proper(job) && Walked(start, now, job, todo) && name in todo && name in job.tree.entries
    ensures GoodName(name) && GoodName(Reversed(name))
    ensures if Reversed(name) in job.base.entries then Shows(now, Dest(job, name), BaseOf(job, name))
      else forall q | Within(Dest(job, name), q) :: q !in now
  {
    ReversedNameIsGood(name);
    ShownAfterEntry(job, todo, name);
    hide Overlay, Mirror, Shown;
    if Reversed(name) !in job.base.entries {
      NothingThere(now, job.reversedPath, Shown(job, todo).entries, Reversed(name));
    }
  }

  lemma WalkAdvances(start: Disk, before: Disk, after: Disk, job: Job, todo: set<string>, name: string)
    requires Proper(job) && Walked(start, before, job, todo)
    requires name in todo && name in job.tree.entries && !job.tree.entries[name].SpecialFile?
    requires Shows(after, Dest(job, name), Placed(job, name)) && AgreeOutside(before, after, Dest(job, name))
    ensures Walked(start, after, job, todo - {name})
  {
    ReversedNameIsGood(name);
    ShownAfterEntry(job, todo, name);
    FolderGainsEntry(before, after, job.reversedPath, Shown(job, todo).entries, Reversed(name), Placed(job, name));
    AgreeOutsideParent(before, after, job.reversedPath, Reversed(name));
    AgreeOutsideTrans(start, before, after, job.reversedPath);
    OtherPathKept(before, after, job.srcPath, job.reversedPath, job.tree);
  }

  /** The disk after a file has been written: one that is open for writing already, or new. */
  function FileWritten(disk: Disk, path: string, content: seq<Byte>): Disk {
    if path in disk && !disk[path].Regular? then disk else disk[path := Regular(content)]
  }

  lemma FileIsPlaced(before: Disk, job: Job, name: string)
    requires Proper(job) && name in job.tree.entries && job.tree.entries[name].RegularFile?
    requires if Reversed(name) in job.base.entries then Shows(before, Dest(job, name), BaseOf(job, name))
      else forall q | Within(Dest(job, name), q) :: q !in before
    ensures var after := FileWritten(before, Dest(job, name), Copied(job.tree.entries[name].content));
      Shows(after, Dest(job, name), Placed(job, name)) && AgreeOutside(before, after, Dest(job, name))
  {
    assert Within(Dest(job, name), Dest(job, name));
  }

  lemma WalkCopies(start: Disk, before: Disk, job: Job, todo: set<string>, name: string)
    requires Proper(job) && Walked(start, before, job, todo)
    requires name in todo && name in job.tree.entries && job.tree.entries[name].RegularFile?
    ensures Walked(start, FileWritten(before, Dest(job, name), Copied(job.tree.entries[name].content)), job,
      todo - {name})
    ensures Dest(job, name) != Join(job.srcPath, name)
  {
    DestinationBefore(start, before, job, todo, name);
    FileIsPlaced(before, job, name);
    WalkAdvances(start, before, FileWritten(before, Dest(job, name), Copied(job.tree.entries[name].content)), job, todo,
      name);
    DestinationElsewhere(job, name);
  }

  lemma DestinationElsewhere(job: Job, name: string)
    requires Proper(job) && name != ""
    ensures Dest(job, name) != Join(job.srcPath, name)
  {
    if Dest(job, name) == Join(job.srcPath, name) {
      WithinChildIsBelow(job.srcPath, name, Dest(job, name));
      WithinChildIsBelow(job.reversedPath, Reversed(name), Dest(job, name));
      EqualLengthsApart(job.srcPath, job.reversedPath, Dest(job, name));
    }
  }

  /** stat on the path that is composed for an entry tells the entry's kind. */
  lemma WalkSees(start: Disk, now: Disk, job: Job, todo: set<string>, name: string)
    requires Proper(job) && Walked(start, now, job, todo) && name in job.tree.entries
    ensures var path := GetPath(job.srcPath, name, |job.srcPath| + |name| + 2); var tree := job.tree.entries[name];
      && path == Join(job.srcPath, name) && path in now
      && (now[path].Regular? <==> tree.RegularFile?)
      && (now[path].Regular? ==> now[path].content == tree.content)
      && (now[path].Directory? <==> tree.Folder?)
  {
    assert Shows(now, Join(job.srcPath, name), job.tree.entries[name]);
  }

  /** The disk after createReverseDir. */
  function DirectoryMade(disk: Disk, path: string): Disk {
    if path in disk then disk else disk[path := Directory]
  }

  lemma NewDirectoryShows(before: Disk, path: string)
    requires forall q | Within(path, q) :: q !in before
    ensures Shows(before[path := Directory], path, Folder(map[]))
    ensures AgreeOutside(before, before[path := Directory], path)
  {
  }

  /** Unless something else is in the way, a subfolder is then in the position that its folder was in. */
  lemma WalkDescends(start: Disk, before: Disk, job: Job, todo: set<string>, name: string)
    requires Proper(job) && Walked(start, before, job, todo)
    requires name in todo && name in job.tree.entries && job.tree.entries[name].Folder?
    ensures var path := Dest(job, name); var made := DirectoryMade(before, path);
      && path != Join(job.srcPath, name) && AgreeOutside(before, made, path)
      && (made[path].Directory? <==> BaseOf(job, name).Folder?)
      && Shows(made, path, BaseOf(job, name))
      && Shows(made, Join(job.srcPath, name), job.tree.entries[name])
  {
    var path := Dest(job, name);
    var made := DirectoryMade(before, path);
    assert Within(path, path);
    DestinationBefore(start, before, job, todo, name);
    DestinationElsewhere(job, name);
    if Reversed(name) !in job.base.entries {
      NewDirectoryShows(before, path);
    }
    AgreeOutsideParent(before, made, job.reversedPath, Reversed(name));
    OtherPathKept(before, made, job.srcPath, job.reversedPath, job.tree);
  }

  lemma WalkReturns(start: Disk, before: Disk, after: Disk, job: Job, todo: set<string>, name: string)
    requires Proper(job) && Walked(start, before, job, todo)
    requires name in todo && name in job.tree.entries && job.tree.entries[name].Folder?
    ensures
      && Shows(after, Dest(job, name), Overlay(BaseOf(job, name), Mirror(job.tree.entries[name])))
      && AgreeOutside(DirectoryMade(before, Dest(job, name)), after, Dest(job, name)) ==>
      Walked(start, after, job, todo - {name})
  {
    var path := Dest(job, name);
    if && Shows(after, path, Overlay(BaseOf(job, name), Mirror(job.tree.entries[name])))
       && AgreeOutside(DirectoryMade(before, path), after, path) {
      assert AgreeOutside(before, DirectoryMade(before, path), path);
      AgreeOutsideTrans(before, DirectoryMade(before, path), after, path);
      if Reversed(name) !in job.base.entries {
        OverlayOnNothing(Mirror(job.tree.entries[name]));
      }
      WalkAdvances(start, before, after, job, todo, name);
    }
  }

  /** Every node lies in a directory of the disk. */
  ghost predicate Rooted(disk: Disk) {
    forall path, q :: q in disk && Below(path, q) ==> path in disk
  }

  /** What the destination shows before the program runs: an empty folder once it has been made, if it
      is not there. */
  ghost predicate StandsAt(disk: Disk, path: string, base: Tree) {
    if path in disk then Shows(disk, path, base) else base == Folder(map[])
  }

  lemma DestinationMade(before: Disk, path: string, base: Tree, srcPath: string, tree: Tree)
    requires Rooted(before) && StandsAt(before, path, base) && base.Folder?
    requires |path| == |srcPath| && path != srcPath && Shows(before, srcPath, tree)
    ensures var made := DirectoryMade(before, path);
      Shows(made, path, base) && Shows(made, srcPath, tree) && AgreeOutside(before, made, path)
  {
    if path !in before {
      NewDirectoryShows(before, path);
    }
    OtherPathKept(before, DirectoryMade(before, path), srcPath, path, tree);
  }

  /** A directory is its own destination exactly if its name is a palindrome. */
  lemma OwnDestinationIffPalindrome(parent: string, name: string)
    requires '/' !in name
    ensures ReversedPath(Join(parent, name)) == Join(parent, name) <==> Reversed(name) == name
  {
    ReversedPathReversesName(parent, name);
    assert Join(parent, name)[|parent| + 1..] == name;
    assert Join(parent, Reversed(name))[|parent| + 1..] == Reversed(name);
  }

  class FileSystem {
    var nodes: Disk

    constructor (disk: Disk)
      ensures nodes == disk
    {
      nodes := disk;
    }

    /** The answer for a directory that is there already is that of a mkdir that succeeds. */
    method CreateReverseDir(path: string) returns (code: int)
      modifies this
      ensures code != 0 <==> old(path in nodes && !nodes[path].Directory?)
      ensures nodes == if path in old(nodes) then old(nodes) else old(nodes)[path := Directory]
    {
      if path in nodes && nodes[path].Directory? {
        return ALREADY_EXIST;
      }
      if path in nodes {
        return -1;
      }
      nodes := nodes[path := Directory];
      return 0;
    }

    /** Opening for writing empties the destination before anything is read, also when it is the source
        itself.  A directory cannot be opened; what a special file does with the bytes is its own. */
    method CreateReverseFile(srcPath: string, srcName: string, reversedPath: string, reversedName: string)
      returns (code: int)
      requires Join(srcPath, srcName) in nodes && nodes[Join(srcPath, srcName)].Regular?
      modifies this
      ensures var source, destination := Join(srcPath, srcName), Join(reversedPath, reversedName);
        && nodes == FileWritten(old(nodes), destination,
             if source == destination then [] else Copied(old(nodes[source].content)))
        && (code == FILE_OPEN_ERROR <==> old(destination in nodes && nodes[destination].Directory?))
    {
      var source := GetPath(srcPath, srcName, |srcPath| + |srcName| + 2);
      var destination := GetPath(reversedPath, reversedName, |reversedPath| + |reversedName| + 2);
      if destination in nodes && nodes[destination].Directory? {
        return FILE_OPEN_ERROR;
      }
      nodes := FileWritten(nodes, destination, []);
      var input := new Stream(nodes[source].content);
      var output := new Stream([]);
      CopyContent(input, output);
      assert output.content == Copied(input.content);
      nodes := FileWritten(nodes, destination, output.content);
      return SUCCESS;
    }

    /** The name of an entry, reversed in a buffer of its own. */
    method ReverseEntryName(name: string) returns (reversedName: string)
      ensures reversedName == Reversed(name)
    {
      var buffer := new char[|name| + 1];
      buffer[|name|] := '\0';
      CreateReverseName(name, buffer);
      reversedName := buffer[..|name|];
    }

    /** The subfolder branch of the walk. */
    method ReverseSubfolder(srcPath: string, reversedPath: string, name: string, ghost start: Disk, ghost job: Job,
        ghost todo: set<string>)
      requires Proper(job) && srcPath == job.srcPath && reversedPath == job.reversedPath
      requires Walked(start, nodes, job, todo)
      requires name in todo && name in job.tree.entries && job.tree.entries[name].Folder?
      modifies this
      ensures Walked(start, nodes, job, todo - {name})
      decreases job.tree, 0
    {
      ghost var before := nodes;
      WalkDescends(start, before, job, todo, name);
      PathFitsIff(srcPath, reversedPath, name);
      var len := |srcPath| + |name| + 2;
      var fullSrcPath := GetPath(srcPath, name, len);
      var reversedName := ReverseEntryName(name);
      var newDestPath := GetPath(reversedPath, reversedName, len);
      var made := CreateReverseDir(newDestPath);
      hide Shows, Walked;
      if made == 0 {
        var code := ReverseFiles(fullSrcPath, newDestPath, job.tree.entries[name], BaseOf(job, name));
      }
      WalkReturns(start, before, nodes, job, todo, name);
    }

    /** One turn of the walk: the entry called `name`. */
    method ReverseEntry(srcPath: string, reversedPath: string, name: string, ghost start: Disk, ghost job: Job,
        ghost todo: set<string>)
      requires Proper(job) && srcPath == job.srcPath && reversedPath == job.reversedPath
      requires Walked(start, nodes, job, todo) && name in todo && name in job.tree.entries
      modifies this
      ensures Walked(start, nodes, job, todo - {name})
      decreases job.tree, 1
    {
      hide Walked;
      WalkSees(start, nodes, job, todo, name);
      var fullSrcPath := GetPath(srcPath, name, |srcPath| + |name| + 2);
      if fullSrcPath in nodes {
        if nodes[fullSrcPath].Regular? {
          WalkCopies(start, nodes, job, todo, name);
          var reversedName := ReverseEntryName(name);
          var _ := CreateReverseFile(srcPath, name, reversedPath, reversedName);
        } else if nodes[fullSrcPath].Directory? {
          ReverseSubfolder(srcPath, reversedPath, name, start, job, todo);
        } else {
          WalkSkips(start, nodes, job, todo, name);
        }
      }
    }

    /** Lays the mirror of the folder at srcPath over the folder at reversedPath, and touches nothing
        else. */
    method ReverseFiles(srcPath: string, reversedPath: string, ghost tree: Tree, ghost base: Tree) returns (code: int)
      requires Proper(Job(srcPath, reversedPath, tree, base))
      requires Shows(nodes, srcPath, tree) && Shows(nodes, reversedPath, base)
      modifies this
      ensures code == SUCCESS
      ensures Shows(nodes, reversedPath, Overlay(base, Mirror(tree)))
      ensures AgreeOutside(old(nodes), nodes, reversedPath)
      decreases tree, 2
    {
      ghost var start, job := nodes, Job(srcPath, reversedPath, tree, base);
      ListingOfFolder(nodes, srcPath, tree.entries);
      var todo := Listing(nodes, srcPath);
      WalkBegins(start, job, todo);
      hide Walked, Shows, Listing;
      while todo != {}
        invariant todo <= tree.entries.Keys + {".", ".."}
        invariant Walked(start, nodes, job, todo)
        decreases |todo|
      {
        var name :| name in todo;
        if name == "." || name == ".." {
          WalkSkips(start, nodes, job, todo, name);
        } else {
          ReverseEntry(srcPath, reversedPath, name, start, job, todo);
        }
        todo := todo - {name};
      }
      WalkEnds(start, nodes, job);
      return SUCCESS;
    }

    /** Only a path taken by something other than a directory is refused. */
    method ReverseDir(srcPath: string) returns (reversedPath: string, ok: bool)
      requires srcPath != ""
      modifies this
      ensures reversedPath == ReversedPath(srcPath)
      ensures ok <==> old(reversedPath !in nodes || nodes[reversedPath].Directory?)
      ensures nodes == if reversedPath in old(nodes) then old(nodes) else old(nodes)[reversedPath := Directory]
    {
      reversedPath := NameReversedDir(srcPath);
      var code := CreateReverseDir(reversedPath);
      ok := code == 0;
    }

    /** The whole program on a folder with a name that is no palindrome.  If its reversed path is taken
        by something that is no directory, nothing happens.  Otherwise the mirrored tree is laid over
        what is there, and stands alone if the path was free; the source and the rest of the disk are
        as before. */
    method Reverse(srcPath: string, ghost tree: Tree, ghost base: Tree) returns (code: int)
      requires srcPath != "" && ReversedPath(srcPath) != srcPath && Rooted(nodes)
      requires tree.Folder? && Shows(nodes, srcPath, tree) && StandsAt(nodes, ReversedPath(srcPath), base)
      modifies this
      ensures code == if base.Folder? then SUCCESS else REVERSE_ERROR
      ensures !base.Folder? ==> nodes == old(nodes)
      ensures base.Folder? ==>
        && Shows(nodes, ReversedPath(srcPath), Overlay(base, Mirror(tree))) && Shows(nodes, srcPath, tree)
        && AgreeOutside(old(nodes), nodes, ReversedPath(srcPath))
      ensures old(ReversedPath(srcPath) !in nodes) ==> Shows(nodes, ReversedPath(srcPath), Mirror(tree))
    {
      ghost var before := nodes;
      ghost var path := ReversedPath(srcPath);
      var reversedPath, ok := ReverseDir(srcPath);
      if !ok {
        return REVERSE_ERROR;
      }
      DestinationMade(before, path, base, srcPath, tree);
      ghost var made := nodes;
      code := ReverseFiles(srcPath, reversedPath, tree, base);
      AgreeOutsideTrans(before, made, nodes, path);
      OtherPathKept(made, nodes, srcPath, path, tree);
      OverlayOnNothing(Mirror(tree));
    }
  }
}
