/**
 The source area of a task workspace: text files in a directory tree, written
 whole, with quotas on the number of files, each file and their total size.
 */
module Workspaces {
  import opened Prelude
  import opened Texts
  import opened Paths

  datatype Error =
    | PathInvalid | FileNotFound | FileExists | TooLarge | FileLimit | SizeLimit
    | EditInvalid | EditConflict
    | NotADirectory  // raised by the file system, not by the workspace

  datatype Limits = Limits(maxFiles: nat, maxFileBytes: nat, maxSourceBytes: nat)

  const DEFAULT_LIMITS := Limits(100, 1_048_576, 10_485_760)

  datatype Tree = Tree(files: map<Path, string>, dirs: set<Path>)

  // ----------------------------------------------------------------- paths

  predicate SafePart(part: string) {
    part != "" && part[|part| - 1] != '.' && part[|part| - 1] != ' '
  }

  /** A relative path without drive letters, empty parts, or parts ending in a dot or space. */
  function Resolve(relative: string): Option<Path> {
    var normalized := ReplaceAll(relative, "\\", "/");
    var parts := Split(normalized);
    if ':' in normalized || '\0' in normalized || exists part :: part in parts && !SafePart(part)
    then None
    else Some(parts)
  }

  /** What a listed file's own path looks like. */
  predicate Listable(path: Path) {
    path != [] && forall part :: part in path ==>
      SafePart(part) && '/' !in part && '\\' !in part && ':' !in part && '\0' !in part
  }

  lemma {:induction false} NothingToReplace(s: string)
    requires '\\' !in s
    ensures ReplaceAll(s, "\\", "/") == s
  {
    if s != "" {
      NothingToReplace(s[1..]);
      assert s[..1] == [s[0]];
    }
  }

  /** Reading a listed file back by its posix name finds that same file. */
  lemma ListedNamesResolve(path: Path)
    requires Listable(path)
    ensures Resolve(Join(path)) == Some(path)
  {
    JoinAvoids(path, '\\');
    JoinAvoids(path, ':');
    JoinAvoids(path, '\0');
    NothingToReplace(Join(path));
    SplitJoin(path);
  }

  lemma {:induction false} SlashesReplaced(s: string)
    ensures '\\' !in ReplaceAll(s, "\\", "/")
  {
    if s != "" {
      SlashesReplaced(s[1..]);
      assert s[..1] == [s[0]];
    }
  }

  lemma ResolvedIsListable(relative: string)
    ensures match Resolve(relative) case None => true case Some(path) => Listable(path)
  {
    var normalized := ReplaceAll(relative, "\\", "/");
    SlashesReplaced(relative);
    if Resolve(relative).Some? {
      forall part | part in Split(normalized)
        ensures SafePart(part) && '/' !in part && '\\' !in part && ':' !in part && '\0' !in part
      {
        SplitParts(normalized, part);
      }
    }
  }

  // ------------------------------------------------------------ file sizes

  ghost function Total(files: map<Path, string>): nat
    decreases |files|
  {
    if files == map[] then 0
    else
      var path :| path in files;
      assert |files - {path}| < |files| by { assert (files - {path}).Keys == files.Keys - {path}; }
      EncodedSize(files[path]) + Total(files - {path})
  }

  lemma {:induction false} TotalRemove(files: map<Path, string>, path: Path)
    requires path in files
    ensures Total(files) == EncodedSize(files[path]) + Total(files - {path})
    decreases |files|
  {
    var chosen :| chosen in files && Total(files) == EncodedSize(files[chosen]) + Total(files - {chosen});
    if chosen != path {
      assert |files - {chosen}| < |files| by { assert (files - {chosen}).Keys == files.Keys - {chosen}; }
      assert |files - {path}| < |files| by { assert (files - {path}).Keys == files.Keys - {path}; }
      TotalRemove(files - {chosen}, path);
      TotalRemove(files - {path}, chosen);
      assert files - {chosen} - {path} == files - {path} - {chosen};
    }
  }

  function SizeAt(files: map<Path, string>, path: Path): nat {
    if path in files then EncodedSize(files[path]) else 0
  }

  lemma TotalPut(files: map<Path, string>, path: Path, content: string)
    ensures Total(files[path := content]) == Total(files) - SizeAt(files, path) + EncodedSize(content)
    ensures SizeAt(files, path) <= Total(files)
  {
    TotalRemove(files[path := content], path);
    if path in files {
      TotalRemove(files, path);
      assert files[path := content] - {path} == files - {path};
    } else {
      assert files[path := content] - {path} == files;
    }
  }

  // -------------------------------------------------------- specifications

  /** Every check made before a write, in the order it is made. */
  ghost function Prepared(limits: Limits, tree: Tree, relative: string, content: string, overwrite: bool)
    : Result<Path, Error>
  {
    if EncodedSize(content) > limits.maxFileBytes then Err(TooLarge)
    else
      match Resolve(relative)
      case None => Err(PathInvalid)
      case Some(path) =>
        if path in tree.dirs then Err(PathInvalid)
        else if path in tree.files && !overwrite then Err(FileExists)
        else if path !in tree.files && |tree.files| >= limits.maxFiles then Err(FileLimit)
        else if Total(tree.files) - SizeAt(tree.files, path) + EncodedSize(content) > limits.maxSourceBytes
        then Err(SizeLimit)
        else Ok(path)
  }

  /** A proper ancestor of `path` that is a file. */
  ghost predicate FileAncestor(tree: Tree, path: Path) {
    exists k: nat :: k < |path| && path[..k] in tree.files
  }

  function Ancestors(path: Path): set<Path> {
    set k: nat | k < |path| :: path[..k]
  }

  ghost function Written(limits: Limits, tree: Tree, relative: string, content: string, overwrite: bool)
    : Result<Tree, Error>
  {
    match Prepared(limits, tree, relative, content, overwrite)
    case Err(e) => Err(e)
    case Ok(path) =>
      if FileAncestor(tree, path) then Err(NotADirectory)
      else Ok(Tree(tree.files[path := content], tree.dirs + Ancestors(path)))
  }

  function ReadBack(limits: Limits, tree: Tree, relative: string): Result<string, Error> {
    match Resolve(relative)
    case None => Err(PathInvalid)
    case Some(path) =>
      if path !in tree.files then Err(FileNotFound)
      else if EncodedSize(tree.files[path]) > limits.maxFileBytes then Err(TooLarge)
      else Ok(Universal(tree.files[path]))
  }

  /** Every source file can be read under the name it is listed with. */
  predicate Readable(limits: Limits, tree: Tree) {
    forall path :: path in tree.files ==> ReadBack(limits, tree, Join(path)).Ok?
  }

  /**
   The sources as the rest of the program sees them: each file is listed and read
   back by that name. A name that another program left may be refused, or even
   name another file.
   */
  function Snapshot(limits: Limits, tree: Tree): Option<map<Path, string>> {
    if Readable(limits, tree)
    then Some(map path | path in tree.files :: ReadBack(limits, tree, Join(path)).value)
    else None
  }

  /** An error that some listed file gives when it is read. */
  ghost predicate Unreadable(limits: Limits, tree: Tree, e: Error) {
    exists path :: path in tree.files && ReadBack(limits, tree, Join(path)) == Err(e)
  }

  datatype Preview = Preview(sources: map<Path, string>, path: Path, sizeBytes: nat)

  ghost function Previewed(limits: Limits, tree: Tree, relative: string, content: string, overwrite: bool)
    : Option<Preview>
  {
    var prepared := Prepared(limits, tree, relative, content, overwrite);
    var sources := Snapshot(limits, tree);
    if prepared.Err? || sources.None? then None
    else Some(Preview(sources.value[prepared.value := TwoPass(content)], prepared.value, EncodedSize(content)))
  }

  /** What a preview that fails may report; which unreadable file is met first depends on the listing. */
  ghost predicate PreviewFails(
      limits: Limits, tree: Tree, relative: string, content: string, overwrite: bool, e: Error)
  {
    match Prepared(limits, tree, relative, content, overwrite)
    case Err(first) => e == first
    case Ok(_) => Unreadable(limits, tree, e)
  }

  function Edited(limits: Limits, tree: Tree, relative: string, oldText: string, newText: string)
    : Result<string, Error>
  {
    if oldText == "" then Err(EditInvalid)
    else
      match ReadBack(limits, tree, relative)
      case Err(e) => Err(e)
      case Ok(current) =>
        if Count(current, oldText) != 1 then Err(EditConflict)
        else Ok(ReplaceFirst(current, oldText, newText))
  }

  function Deleted(tree: Tree, relative: string): Result<Tree, Error> {
    match Resolve(relative)
    case None => Err(PathInvalid)
    case Some(path) =>
      if path !in tree.files then Err(FileNotFound)
      else Ok(tree.(files := tree.files - {path}))
  }

  // ---------------------------------------------------------- the manager

  class Workspace {
    const limits: Limits
    var tree: Tree

    /** Quotas are not part of it: other programs may leave more than these methods would. */
    ghost predicate Valid()
      reads this
    {
      WellFormed(tree)
    }

    constructor (limits: Limits)
      ensures Valid() && this.limits == limits && tree == Tree(map[], {[]})
    {
      this.limits, tree := limits, Tree(map[], {[]});
    }

    method SourceBytes() returns (total: nat)
      ensures total == Total(tree.files)
    {
      total := 0;
      var rest := tree.files;
      while rest != map[]
        invariant total + Total(rest) == Total(tree.files)
        decreases |rest|
      {
        var path :| path in rest;
        TotalRemove(rest, path);
        assert (rest - {path}).Keys == rest.Keys - {path};
        total := total + EncodedSize(rest[path]);
        rest := rest - {path};
      }
    }

    method CheckQuota(path: Path, size: nat) returns (refusal: Option<Error>)
      ensures refusal ==
        if path !in tree.files && |tree.files| >= limits.maxFiles then Some(FileLimit)
        else if Total(tree.files) - SizeAt(tree.files, path) + size > limits.maxSourceBytes
        then Some(SizeLimit) else None
    {
      if path !in tree.files && |tree.files| >= limits.maxFiles {
        return Some(FileLimit);
      }
      var existing := if path in tree.files then EncodedSize(tree.files[path]) else 0;
      var total := SourceBytes();
      refusal := if total - existing + size > limits.maxSourceBytes then Some(SizeLimit) else None;
    }

    method PrepareTextWrite(relative: string, content: string, overwrite: bool)
      returns (r: Result<Path, Error>)
      ensures r == Prepared(limits, tree, relative, content, overwrite)
    {
      if EncodedSize(content) > limits.maxFileBytes {
        return Err(TooLarge);
      }
      var resolved := Resolve(relative);
      if resolved.None? || resolved.value in tree.dirs {
        return Err(PathInvalid);
      }
      if resolved.value in tree.files && !overwrite {
        return Err(FileExists);
      }
      var refusal := CheckQuota(resolved.value, EncodedSize(content));
      r := if refusal.Some? then Err(refusal.value) else Ok(resolved.value);
    }

    /** Creates the missing parents, then the file; a file in the way stops it first. */
    method MakeParents(path: Path) returns (ok: bool)
      modifies this`tree
      ensures ok <==> !FileAncestor(old(tree), path)
      ensures tree == if ok then old(tree).(dirs := old(tree).dirs + Ancestors(path)) else old(tree)
    {
      var k := 0;
      while k < |path|
        invariant 0 <= k <= |path|
        invariant forall j :: 0 <= j < k ==> path[..j] !in tree.files
      {
        if path[..k] in tree.files {
          return false;
        }
        k := k + 1;
      }
      tree := tree.(dirs := tree.dirs + Ancestors(path));
      ok := true;
    }

    method WriteText(relative: string, content: string, overwrite: bool)
      returns (r: Result<Path, Error>)
      requires Valid()
      modifies this`tree
      ensures Valid()
      ensures match Written(limits, old(tree), relative, content, overwrite)
              case Ok(after) => tree == after && r.Ok? && Resolve(relative) == Some(r.value)
              case Err(e) => tree == old(tree) && r == Err(e)
    {
      r := PrepareTextWrite(relative, content, overwrite);
      if r.Ok? {
        var ok := MakeParents(r.value);
        if !ok {
          return Err(NotADirectory);
        }
        WriteKeepsShape(limits, old(tree), relative, content, overwrite);
        tree := tree.(files := tree.files[r.value := content]);
      }
    }

    method ReadText(relative: string) returns (r: Result<string, Error>)
      ensures r == ReadBack(limits, tree, relative)
    {
      var path := Resolve(relative);
      if path.None? {
        return Err(PathInvalid);
      }
      if path.value !in tree.files {
        return Err(FileNotFound);
      }
      if EncodedSize(tree.files[path.value]) > limits.maxFileBytes {
        return Err(TooLarge);
      }
      r := Ok(Universal(tree.files[path.value]));
    }

    /** Lists the files and reads each back under its own name. */
    method SourceSnapshot() returns (r: Result<map<Path, string>, Error>)
      ensures match Snapshot(limits, tree)
              case Some(sources) => r == Ok(sources)
              case None => r.Err? && Unreadable(limits, tree, r.error)
    {
      var sources: map<Path, string> := map[];
      var rest := tree.files.Keys;
      hide ReadBack;
      while rest != {}
        invariant rest <= tree.files.Keys
        invariant sources.Keys == tree.files.Keys - rest
        invariant forall path :: path in sources ==> ReadBack(limits, tree, Join(path)) == Ok(sources[path])
      {
        var path :| path in rest;
        var text := ReadText(Join(path));
        if text.Err? {
          return Err(text.error);
        }
        sources := sources[path := text.value];
        rest := rest - {path};
      }
      SnapshotIs(limits, tree, sources);
      r := Ok(sources);
    }

    /** Predicts a write; it has no `modifies` clause, so nothing changes. */
    method PreviewText(relative: string, content: string, overwrite: bool)
      returns (r: Result<Preview, Error>)
      ensures match Previewed(limits, tree, relative, content, overwrite)
              case Some(preview) => r == Ok(preview)
              case None => r.Err? && PreviewFails(limits, tree, relative, content, overwrite, r.error)
    {
      var path := PrepareTextWrite(relative, content, overwrite);
      if path.Err? {
        return Err(path.error);
      }
      var sources := SourceSnapshot();
      if sources.Err? {
        return Err(sources.error);
      }
      r := Ok(Preview(sources.value[path.value := TwoPass(content)], path.value, EncodedSize(content)));
    }

    method EditedText(relative: string, oldText: string, newText: string)
      returns (r: Result<string, Error>)
      ensures r == Edited(limits, tree, relative, oldText, newText)
    {
      if oldText == "" {
        return Err(EditInvalid);
      }
      var current := ReadText(relative);
      if current.Err? {
        return Err(current.error);
      }
      if Count(current.value, oldText) != 1 {
        return Err(EditConflict);
      }
      r := Ok(ReplaceFirst(current.value, oldText, newText));
    }

    method PreviewEdit(relative: string, oldText: string, newText: string)
      returns (r: Result<Preview, Error>)
      ensures match Edited(limits, tree, relative, oldText, newText)
              case Err(e) => r == Err(e)
              case Ok(text) =>
                match Previewed(limits, tree, relative, text, true)
                case Some(preview) => r == Ok(preview)
                case None => r.Err? && PreviewFails(limits, tree, relative, text, true, r.error)
    {
      var text := EditedText(relative, oldText, newText);
      if text.Err? {
        return Err(text.error);
      }
      r := PreviewText(relative, text.value, true);
    }

    method EditText(relative: string, oldText: string, newText: string)
      returns (r: Result<Path, Error>)
      requires Valid()
      modifies this`tree
      ensures Valid()
      ensures tree == Apply(limits, old(tree), EditFile(relative, oldText, newText)).0
      ensures r.Ok? == Apply(limits, old(tree), EditFile(relative, oldText, newText)).1
    {
      var text := EditedText(relative, oldText, newText);
      if text.Err? {
        return Err(text.error);
      }
      r := WriteText(relative, text.value, true);
    }

    method DeleteFile(relative: string) returns (r: Option<Error>)
      requires Valid()
      modifies this`tree
      ensures Valid()
      ensures match Deleted(old(tree), relative)
              case Ok(after) => tree == after && r == None
              case Err(e) => tree == old(tree) && r == Some(e)
    {
      var path := Resolve(relative);
      if path.None? {
        return Some(PathInvalid);
      }
      if path.value !in tree.files {
        return Some(FileNotFound);
      }
      DeleteKeepsShape(tree, relative);
      tree := tree.(files := tree.files - {path.value});
      r := None;
    }
  }

  // ------------------------------------------------------------ operations

  datatype Operation =
    | CreateFile(path: string, content: string)
    | EditFile(path: string, oldText: string, newText: string)
    | DeleteSource(path: string)

  /** The tree after an operation and whether it succeeded. */
  ghost function Apply(limits: Limits, tree: Tree, op: Operation): (Tree, bool) {
    match op
    case CreateFile(path, content) =>
      (match Written(limits, tree, path, content, false)
       case Ok(after) => (after, true)
       case Err(_) => (tree, false))
    case EditFile(path, oldText, newText) =>
      (match Edited(limits, tree, path, oldText, newText)
       case Err(_) => (tree, false)
       case Ok(text) =>
         match Written(limits, tree, path, text, true)
         case Ok(after) => (after, true)
         case Err(_) => (tree, false))
    case DeleteSource(path) =>
      match Deleted(tree, path)
      case Ok(after) => (after, true)
      case Err(_) => (tree, false)
  }

  ghost function ApplyAll(limits: Limits, tree: Tree, ops: seq<Operation>): Tree {
    if ops == [] then tree
    else Apply(limits, ApplyAll(limits, tree, ops[..|ops| - 1]), ops[|ops| - 1]).0
  }

  /** No path is both a file and a directory, and every ancestor of a file is a directory. */
  ghost predicate WellFormed(tree: Tree) {
    && [] in tree.dirs
    && tree.files.Keys !! tree.dirs
    && (forall path, k: nat :: path in tree.files && k < |path| ==> path[..k] in tree.dirs)
  }

  /** Every file has a name that this workspace could have given it. */
  ghost predicate AllListable(tree: Tree) {
    forall path :: path in tree.files ==> Listable(path)
  }

  ghost predicate WithinQuotas(limits: Limits, tree: Tree) {
    && |tree.files| <= limits.maxFiles
    && (forall path :: path in tree.files ==> EncodedSize(tree.files[path]) <= limits.maxFileBytes)
    && Total(tree.files) <= limits.maxSourceBytes
  }

  ghost predicate Sound(limits: Limits, tree: Tree) {
    WellFormed(tree) && AllListable(tree) && WithinQuotas(limits, tree)
  }

  /** One file is never inside another. */
  lemma FilesArePrefixFree(tree: Tree, path: Path)
    requires WellFormed(tree) && path in tree.files
    ensures !FileAncestor(tree, path)
  {
  }

  lemma PutKeepsShape(tree: Tree, path: Path, content: string)
    requires WellFormed(tree) && path != [] && path !in tree.dirs && !FileAncestor(tree, path)
    ensures WellFormed(Tree(tree.files[path := content], tree.dirs + Ancestors(path)))
    ensures AllListable(tree) && Listable(path) ==>
              AllListable(Tree(tree.files[path := content], tree.dirs + Ancestors(path)))
  {
    hide Listable;
    var after := Tree(tree.files[path := content], tree.dirs + Ancestors(path));
    forall p, k: nat | p in after.files && k < |p|
      ensures p[..k] in after.dirs
    {
    }
    forall p | p in after.files
      ensures p !in after.dirs
    {
    }
  }

  lemma PutKeepsQuotas(limits: Limits, tree: Tree, path: Path, content: string)
    requires WithinQuotas(limits, tree) && EncodedSize(content) <= limits.maxFileBytes
    requires path in tree.files || |tree.files| < limits.maxFiles
    requires Total(tree.files) - SizeAt(tree.files, path) + EncodedSize(content) <= limits.maxSourceBytes
    ensures WithinQuotas(limits, Tree(tree.files[path := content], tree.dirs + Ancestors(path)))
  {
    TotalPut(tree.files, path, content);
    hide EncodedSize, Total, SizeAt;
    assert tree.files[path := content].Keys == tree.files.Keys + {path};
  }

  lemma WriteKeepsShape(limits: Limits, tree: Tree, relative: string, content: string, overwrite: bool)
    requires WellFormed(tree)
    requires Written(limits, tree, relative, content, overwrite).Ok?
    ensures WellFormed(Written(limits, tree, relative, content, overwrite).value)
    ensures Sound(limits, tree) ==> Sound(limits, Written(limits, tree, relative, content, overwrite).value)
  {
    ResolvedIsListable(relative);
    if Sound(limits, tree) {
      WriteKeepsSound(limits, tree, relative, content, overwrite);
    }
    hide Resolve, EncodedSize, Total, SizeAt, Listable, WellFormed, WithinQuotas, FileAncestor;
    PutKeepsShape(tree, Prepared(limits, tree, relative, content, overwrite).value, content);
  }

  lemma WriteKeepsSound(limits: Limits, tree: Tree, relative: string, content: string, overwrite: bool)
    requires Sound(limits, tree)
    requires Written(limits, tree, relative, content, overwrite).Ok?
    ensures Sound(limits, Written(limits, tree, relative, content, overwrite).value)
  {
    ResolvedIsListable(relative);
    hide Resolve, EncodedSize, Total, SizeAt, Listable, WellFormed, WithinQuotas, FileAncestor;
    var path := Prepared(limits, tree, relative, content, overwrite).value;
    PutKeepsShape(tree, path, content);
    PutKeepsQuotas(limits, tree, path, content);
  }

  lemma DeleteKeepsSound(limits: Limits, tree: Tree, relative: string)
    requires Sound(limits, tree) && Deleted(tree, relative).Ok?
    ensures Sound(limits, Deleted(tree, relative).value)
  {
    var path := Resolve(relative).value;
    TotalRemove(tree.files, path);
    assert (tree.files - {path}).Keys == tree.files.Keys - {path};
  }

  lemma DeleteKeepsShape(tree: Tree, relative: string)
    requires WellFormed(tree) && Deleted(tree, relative).Ok?
    ensures WellFormed(Deleted(tree, relative).value)
    ensures forall limits :: Sound(limits, tree) ==> Sound(limits, Deleted(tree, relative).value)
  {
    forall limits | Sound(limits, tree)
      ensures Sound(limits, Deleted(tree, relative).value)
    {
      DeleteKeepsSound(limits, tree, relative);
    }
  }

  lemma ApplyKeepsSound(limits: Limits, tree: Tree, op: Operation)
    requires Sound(limits, tree)
    ensures Sound(limits, Apply(limits, tree, op).0)
  {
    match op
    case CreateFile(path, content) =>
      if Written(limits, tree, path, content, false).Ok? {
        WriteKeepsSound(limits, tree, path, content, false);
      }
    case EditFile(path, oldText, newText) =>
      var text := Edited(limits, tree, path, oldText, newText);
      if text.Ok? && Written(limits, tree, path, text.value, true).Ok? {
        WriteKeepsSound(limits, tree, path, text.value, true);
      }
    case DeleteSource(path) =>
      if Deleted(tree, path).Ok? {
        DeleteKeepsSound(limits, tree, path);
      }
  }

  /** Every run of writes, edits and deletions keeps all three quotas and the tree's shape. */
  lemma {:induction false} RunsStaySound(limits: Limits, tree: Tree, ops: seq<Operation>)
    requires Sound(limits, tree)
    ensures Sound(limits, ApplyAll(limits, tree, ops))
  {
    if ops != [] {
      RunsStaySound(limits, tree, ops[..|ops| - 1]);
      ApplyKeepsSound(limits, ApplyAll(limits, tree, ops[..|ops| - 1]), ops[|ops| - 1]);
    }
  }

  // -------------------------------------------------------------- previews

  ghost predicate FitEach(limits: Limits, files: map<Path, string>) {
    forall path :: path in files ==> EncodedSize(files[path]) <= limits.maxFileBytes
  }

  /** Every source file decoded. */
  function Decoded(files: map<Path, string>): map<Path, string> {
    map path | path in files :: Universal(files[path])
  }

  /** Some other file's name is read as `path`, and `content` would change what is read there. */
  ghost predicate Misread(tree: Tree, path: Path, content: string) {
    path in tree.files && Universal(tree.files[path]) != Universal(content)
    && exists other :: other in tree.files && other != path && Resolve(Join(other)) == Some(path)
  }

  lemma ListedFileReads(limits: Limits, tree: Tree, path: Path)
    requires path in tree.files && Listable(path)
    ensures ReadBack(limits, tree, Join(path)) ==
            if EncodedSize(tree.files[path]) > limits.maxFileBytes then Err(TooLarge)
            else Ok(Universal(tree.files[path]))
  {
    ListedNamesResolve(path);
  }

  lemma SnapshotIs(limits: Limits, tree: Tree, sources: map<Path, string>)
    requires sources.Keys == tree.files.Keys
    requires forall path :: path in sources ==> ReadBack(limits, tree, Join(path)) == Ok(sources[path])
    ensures Snapshot(limits, tree) == Some(sources)
  {
    hide ReadBack, Join;
    assert Readable(limits, tree);
    var found := Snapshot(limits, tree).value;
    assert found.Keys == sources.Keys;
    forall path | path in found
      ensures found[path] == sources[path]
    {
      assert ReadBack(limits, tree, Join(path)) == Ok(sources[path]);
    }
    assert found == sources;
  }

  /** Among names of this workspace's own making, only a file that is too large cannot be read. */
  lemma ListedSourcesRead(limits: Limits, tree: Tree)
    requires AllListable(tree)
    ensures Snapshot(limits, tree) == if FitEach(limits, tree.files) then Some(Decoded(tree.files)) else None
    ensures forall e :: Unreadable(limits, tree, e) <==> e == TooLarge && !FitEach(limits, tree.files)
  {
    forall path | path in tree.files
      ensures EncodedSize(tree.files[path]) > limits.maxFileBytes ==>
                ReadBack(limits, tree, Join(path)) == Err(TooLarge)
      ensures EncodedSize(tree.files[path]) <= limits.maxFileBytes ==>
                ReadBack(limits, tree, Join(path)) == Ok(Universal(tree.files[path]))
    {
      ListedFileReads(limits, tree, path);
    }
    hide Universal, EncodedSize, Join, ReadBack, AllListable, Snapshot;
    if FitEach(limits, tree.files) {
      SnapshotIs(limits, tree, Decoded(tree.files));
    } else {
      var path :| path in tree.files && EncodedSize(tree.files[path]) > limits.maxFileBytes;
      assert ReadBack(limits, tree, Join(path)) == Err(TooLarge);
      Unread(limits, tree, path);
    }
  }

  lemma Unread(limits: Limits, tree: Tree, path: Path)
    requires path in tree.files && ReadBack(limits, tree, Join(path)).Err?
    ensures Snapshot(limits, tree) == None
  {
  }

  /** Such names are read as themselves. */
  lemma ListedIsNotMisread(tree: Tree, path: Path, content: string)
    requires AllListable(tree)
    ensures !Misread(tree, path, content)
  {
    forall other | other in tree.files
      ensures Resolve(Join(other)) == Some(other)
    {
      ListedNamesResolve(other);
    }
  }

  lemma ReadAfterPut(limits: Limits, tree: Tree, after: Tree, path: Path, content: string, name: string)
    requires after.files == tree.files[path := content] && EncodedSize(content) <= limits.maxFileBytes
    ensures ReadBack(limits, after, name) ==
            if Resolve(name) == Some(path) then Ok(Universal(content)) else ReadBack(limits, tree, name)
  {
  }

  lemma SnapshotReads(limits: Limits, tree: Tree)
    requires Readable(limits, tree)
    ensures Snapshot(limits, tree).Some? && Snapshot(limits, tree).value.Keys == tree.files.Keys
    ensures forall p :: p in tree.files ==>
              ReadBack(limits, tree, Join(p)) == Ok(Snapshot(limits, tree).value[p])
  {
    hide ReadBack, Join;
  }

  lemma ReadsAs(limits: Limits, tree: Tree, name: string, path: Path)
    ensures ReadBack(limits, tree, name).Ok? && Resolve(name) == Some(path) ==>
              path in tree.files && ReadBack(limits, tree, name) == Ok(Universal(tree.files[path]))
  {
  }

  /** What one name reads as after a write, against what was predicted. */
  lemma PredictedRead(
      limits: Limits, tree: Tree, after: Tree, path: Path, content: string, sources: map<Path, string>, p: Path)
    requires Readable(limits, tree) && Listable(path) && Snapshot(limits, tree) == Some(sources)
    requires after.files == tree.files[path := content] && EncodedSize(content) <= limits.maxFileBytes
    requires p in after.files
    ensures ReadBack(limits, after, Join(p)).Ok?
    ensures p == path || p in sources
    ensures ReadBack(limits, after, Join(p)) == Ok(sources[path := Universal(content)][p])
            <==> (p != path && Resolve(Join(p)) == Some(path) ==> !Misread(tree, path, content))
  {
    ListedNamesResolve(path);
    ReadAfterPut(limits, tree, after, path, content, Join(p));
    SnapshotReads(limits, tree);
    ReadsAs(limits, tree, Join(p), path);
    hide Resolve, Join, Universal, EncodedSize, Readable, Snapshot, ReadBack, Listable;
  }

  lemma MisreadIsSeen(
      limits: Limits, tree: Tree, after: Tree, path: Path, content: string, sources: map<Path, string>)
    requires Readable(limits, tree) && Listable(path) && Snapshot(limits, tree) == Some(sources)
    requires after.files == tree.files[path := content] && EncodedSize(content) <= limits.maxFileBytes
    requires Misread(tree, path, content)
    ensures Snapshot(limits, after) != Some(sources[path := Universal(content)])
  {
    hide ReadBack, Resolve, Universal, Join, EncodedSize, Listable, Readable, Snapshot;
    var other :| other in tree.files && other != path && Resolve(Join(other)) == Some(path);
    PredictedRead(limits, tree, after, path, content, sources, other);
    if Snapshot(limits, after) == Some(sources[path := Universal(content)]) {
      assert Readable(limits, after) by { SnapshotNeedsAll(limits, after); }
      SnapshotReads(limits, after);
      assert false;
    }
  }

  lemma SnapshotNeedsAll(limits: Limits, tree: Tree)
    ensures Snapshot(limits, tree).Some? <==> Readable(limits, tree)
  {
    hide ReadBack;
  }

  lemma OthersReadAlike(
      limits: Limits, tree: Tree, after: Tree, path: Path, content: string, sources: map<Path, string>)
    requires Readable(limits, tree) && Listable(path) && Snapshot(limits, tree) == Some(sources)
    requires after.files == tree.files[path := content] && EncodedSize(content) <= limits.maxFileBytes
    requires !Misread(tree, path, content)
    ensures Snapshot(limits, after) == Some(sources[path := Universal(content)])
  {
    hide ReadBack, Resolve, Universal, Join, EncodedSize, Listable, Readable, Misread;
    var predicted := sources[path := Universal(content)];
    forall p | p in predicted
      ensures ReadBack(limits, after, Join(p)) == Ok(predicted[p])
    {
      PredictedRead(limits, tree, after, path, content, sources, p);
    }
    hide Snapshot;
    SnapshotIs(limits, after, predicted);
  }

  lemma PreparedPath(limits: Limits, tree: Tree, relative: string, content: string, overwrite: bool)
    requires Prepared(limits, tree, relative, content, overwrite).Ok?
    ensures Listable(Prepared(limits, tree, relative, content, overwrite).value)
    ensures EncodedSize(content) <= limits.maxFileBytes
  {
    ResolvedIsListable(relative);
    hide Resolve, Listable, Total, SizeAt, EncodedSize;
  }

  lemma PreviewedSources(limits: Limits, tree: Tree, relative: string, content: string, overwrite: bool)
    requires Previewed(limits, tree, relative, content, overwrite).Some?
    requires Written(limits, tree, relative, content, overwrite).Ok?
    ensures Prepared(limits, tree, relative, content, overwrite).Ok?
    ensures Snapshot(limits, Written(limits, tree, relative, content, overwrite).value)
            == Some(Previewed(limits, tree, relative, content, overwrite).value.sources)
            <==> !Misread(tree, Prepared(limits, tree, relative, content, overwrite).value, content)
  {
    hide Prepared, Snapshot, Misread, FileAncestor, Listable, EncodedSize;
    var path := Prepared(limits, tree, relative, content, overwrite).value;
    var after := Written(limits, tree, relative, content, overwrite).value;
    PreparedPath(limits, tree, relative, content, overwrite);
    SnapshotNeedsAll(limits, tree);
    var sources := Snapshot(limits, tree).value;
    TwoPassIsUniversal(content);
    hide Readable, TwoPass, Universal;
    if Misread(tree, path, content) {
      MisreadIsSeen(limits, tree, after, path, content, sources);
    } else {
      OthersReadAlike(limits, tree, after, path, content, sources);
    }
  }

  /**
   A preview and the write agree except in two cases: the preview does not see a
   file standing where the write needs a directory, and the write does not mind
   a file elsewhere that cannot be read. When both succeed, the preview's sources
   are the snapshot read back after the write, unless another file's name is read
   as the file written.
   */
  lemma PreviewPredictsWrite(limits: Limits, tree: Tree, relative: string, content: string, overwrite: bool)
    ensures var prepared := Prepared(limits, tree, relative, content, overwrite);
            var preview := Previewed(limits, tree, relative, content, overwrite);
            var write := Written(limits, tree, relative, content, overwrite);
            && (preview.Some? <==> prepared.Ok? && Readable(limits, tree))
            && (write.Ok? <==> prepared.Ok? && !FileAncestor(tree, prepared.value))
            && ((preview.Some? <==> write.Ok?) <==>
                  (prepared.Ok? ==> (Readable(limits, tree) <==> !FileAncestor(tree, prepared.value))))
            && (prepared.Err? ==>
                  write == Err(prepared.error)
                  && forall e :: PreviewFails(limits, tree, relative, content, overwrite, e) <==> e == prepared.error)
            && (preview.Some? && write.Ok? ==>
                  (Snapshot(limits, write.value) == Some(preview.value.sources)
                   <==> !Misread(tree, prepared.value, content)))
  {
    hide Prepared, Snapshot, Readable, FileAncestor, Unreadable;
    SnapshotNeedsAll(limits, tree);
    if Previewed(limits, tree, relative, content, overwrite).Some?
       && Written(limits, tree, relative, content, overwrite).Ok? {
      PreviewedSources(limits, tree, relative, content, overwrite);
    }
  }

  /**
   An edit targets an existing file, which has no file above it: its preview and
   the edit agree exactly when the edit is refused or every file can be read.
   */
  lemma PreviewPredictsEdit(limits: Limits, tree: Tree, relative: string, oldText: string, newText: string)
    requires WellFormed(tree) && Edited(limits, tree, relative, oldText, newText).Ok?
    ensures var text := Edited(limits, tree, relative, oldText, newText).value;
            var prepared := Prepared(limits, tree, relative, text, true);
            var preview := Previewed(limits, tree, relative, text, true);
            var (after, succeeded) := Apply(limits, tree, EditFile(relative, oldText, newText));
            && (succeeded <==> prepared.Ok?)
            && (preview.Some? <==> prepared.Ok? && Readable(limits, tree))
            && (preview.Some? ==>
                  (Snapshot(limits, after) == Some(preview.value.sources)
                   <==> !Misread(tree, prepared.value, text)))
            && (!succeeded ==> after == tree)
  {
    var text := Edited(limits, tree, relative, oldText, newText).value;
    PreviewPredictsWrite(limits, tree, relative, text, true);
    FilesArePrefixFree(tree, Resolve(relative).value);
    hide Readable, Snapshot, Misread, Total, SizeAt, FileAncestor, Edited, Resolve;
  }

  /** One file over the size limit, left by another program, fails every preview and no write. */
  lemma OversizeFailsPreview()
    ensures var limits, tree := Limits(10, 1, 100), Tree(map[["a"] := "xx"], {[]});
            && WellFormed(tree) && AllListable(tree)
            && Prepared(limits, tree, "b", "", false) == Ok(["b"])
            && Previewed(limits, tree, "b", "", false).None?
            && (forall e :: PreviewFails(limits, tree, "b", "", false, e) <==> e == TooLarge)
            && Written(limits, tree, "b", "", false).Ok?
  {
    var limits, tree := Limits(10, 1, 100), Tree(map[["a"] := "xx"], {[]});
    OversizeTree();
    ListedSourcesRead(limits, tree);
    PreviewPredictsWrite(limits, tree, "b", "", false);
    hide Readable, Prepared, Unreadable;
    assert !FitEach(limits, tree.files);
    assert !FileAncestor(tree, ["b"]);
  }

  lemma OversizeTree()
    ensures var limits, tree := Limits(10, 1, 100), Tree(map[["a"] := "xx"], {[]});
            && WellFormed(tree) && AllListable(tree) && EncodedSize("xx") == 2
            && Prepared(limits, tree, "b", "", false) == Ok(["b"])
  {
    var files: map<Path, string> := map[["a"] := "xx"];
    ShortPath("a");
    ShortPath("b");
    OneFileTotal(["a"], "xx");
    assert EncodedSize("xx") == 2 && EncodedSize("") == 0 by { assert "xx"[1..] == "x" && "x"[1..] == ""; }
    assert files.Keys == {["a"]} && |files| == |files.Keys|;
    assert "b" != "a" && ["b"][0] != ["a"][0];
    hide Resolve, Total, EncodedSize, Listable;
  }

  /** A file called `a\b`, left by another program, is read as `a/b`, so the preview of an edit there is wrong. */
  lemma BackslashMisleadsPreview()
    ensures var tree := Tree(map[["a\\b"] := "x", ["a", "b"] := "x"], {[], ["a"]});
            && WellFormed(tree) && Readable(DEFAULT_LIMITS, tree) && Misread(tree, ["a", "b"], "y")
  {
    var tree := Tree(map[["a\\b"] := "x", ["a", "b"] := "x"], {[], ["a"]});
    BackslashNames();
    assert EncodedSize("x") == 1 by { assert "x"[1..] == ""; }
    assert Universal("x") == "x" && Universal("y") == "y" by { assert "x"[1..] == "" && "y"[1..] == ""; }
    hide Resolve, EncodedSize, Universal, Join;
    var odd := ["a\\b"];
    assert |odd| == 1 && odd[..0] == [] && odd != ["a"];
    assert |["a", "b"]| == 2 && ["a", "b"][..0] == [] && ["a", "b"][..1] == ["a"];
    assert odd in tree.files && odd != ["a", "b"];
  }

  lemma BackslashNames()
    ensures |"a\\b"| == 3
    ensures Resolve(Join(["a\\b"])) == Some(["a", "b"]) && Resolve(Join(["a", "b"])) == Some(["a", "b"])
  {
    BackslashPath();
    ExamplePath();
    hide Resolve;
    assert Join(["a", "b"]) == "a/b" by { assert Join(["a", "b"][1..]) == "b"; }
  }

  lemma BackslashPath()
    ensures Resolve("a\\b") == Some(["a", "b"])
  {
    ExamplePath();
    assert "a\\b"[1..] == "\\b" && "\\b"[1..] == "b" && "b"[1..] == "";
    assert ReplaceAll("b", "\\", "/") == "b" && ReplaceAll("\\b", "\\", "/") == "/" + "b";
    assert ReplaceAll("a\\b", "\\", "/") == "a/b";
    NothingToReplace("a/b");
  }

  /** A file `a` hides the failure of writing `a/b` from its preview. */
  lemma PreviewMissesFileAncestor()
    ensures var tree := Tree(map[["a"] := "x"], {[]});
            && Sound(DEFAULT_LIMITS, tree)
            && Previewed(DEFAULT_LIMITS, tree, "a/b", "", false).Some?
            && Written(DEFAULT_LIMITS, tree, "a/b", "", false) == Err(NotADirectory)
  {
    var tree := Tree(map[["a"] := "x"], {[]});
    ExamplePath();
    ExampleTree();
    assert ["a", "b"][..1] == ["a"] && FileAncestor(tree, ["a", "b"]);
    assert ["a", "b"] !in tree.files by { assert |["a", "b"]| != |["a"]|; }
    assert Prepared(DEFAULT_LIMITS, tree, "a/b", "", false) == Ok(["a", "b"]);
    ListedSourcesRead(DEFAULT_LIMITS, tree);
  }

  lemma ExamplePath()
    ensures Resolve("a/b") == Some(["a", "b"])
  {
    assert Join(["a", "b"][1..]) == "b" && Join(["a", "b"]) == "a/b";
    ListedNamesResolve(["a", "b"]);
  }

  lemma ExampleTree()
    ensures Sound(DEFAULT_LIMITS, Tree(map[["a"] := "x"], {[]}))
    ensures |map[["a"] := "x"]| == 1 && Total(map[["a"] := "x"]) == 1
  {
    var files: map<Path, string> := map[["a"] := "x"];
    OneFileTotal(["a"], "x");
    assert EncodedSize("x") == 1 by { assert "x"[1..] == ""; }
    assert files.Keys == {["a"]} && |files| == |files.Keys|;
  }

  lemma OneFileTotal(path: Path, content: string)
    ensures Total(map[path := content]) == EncodedSize(content)
  {
    TotalRemove(map[path := content], path);
    assert map[path := content] - {path} == map[];
  }

  /** An edit is accepted exactly where the decoded text has one hit of the old text. */
  lemma EditNeedsOneHit(limits: Limits, tree: Tree, relative: string, oldText: string, newText: string)
    requires ReadBack(limits, tree, relative).Ok? && oldText != ""
    ensures var current := ReadBack(limits, tree, relative).value;
            var edited := Edited(limits, tree, relative, oldText, newText);
            && (edited.Ok? <==> exists i: nat :: FoundOnceAt(current, oldText, i))
            && (forall i: nat :: FoundOnceAt(current, oldText, i) ==>
                  edited == Ok(current[..i] + newText + current[i + |oldText|..]))
  {
    var current := ReadBack(limits, tree, relative).value;
    CountOne(current, oldText);
    forall i: nat | FoundOnceAt(current, oldText, i)
      ensures Edited(limits, tree, relative, oldText, newText)
              == Ok(current[..i] + newText + current[i + |oldText|..])
    {
      ReplaceFirstAt(current, oldText, newText, i);
    }
  }

  /**
   A successful edit rewrites one file and no other. The stored text keeps all
   but the edited stretch exactly when there is no carriage return outside it;
   what a later read shows is the decoded text with that stretch replaced,
   unless the new text brings carriage returns of its own.
   */
  lemma EditChangesOneStretch(limits: Limits, tree: Tree, relative: string, oldText: string, newText: string)
    requires Apply(limits, tree, EditFile(relative, oldText, newText)).1
    ensures Resolve(relative).Some? && Resolve(relative).value in tree.files
    ensures var path := Resolve(relative).value;
            var before := tree.files[path];
            var files := Apply(limits, tree, EditFile(relative, oldText, newText)).0.files;
            && path in files && files == tree.files[path := files[path]]
            && (exists i: nat, j: nat :: StretchOf(before, oldText, i, j))
            && (forall i: nat, j: nat :: StretchOf(before, oldText, i, j) ==>
                  Rewrites(before, files[path], newText, i, j))
  {
    var path := Resolve(relative).value;
    var before := tree.files[path];
    EditNeedsOneHit(limits, tree, relative, oldText, newText);
    var p: nat :| FoundOnceAt(Universal(before), oldText, p);
    StretchExists(before, oldText, p);
    hide FoundOnceAt, Universal, ReplaceFirst, Count, Rewrites;
    forall i: nat, j: nat | StretchOf(before, oldText, i, j)
      ensures Rewrites(before, ReplaceFirst(Universal(before), oldText, newText), newText, i, j)
    {
      EditRewritesStretch(before, oldText, newText, i, j);
    }
  }

  /** Editing the last line of this file rewrites the line ending before it. */
  lemma EditRewritesLineEndings()
    ensures var tree := Tree(map[["a"] := "x\r\ny"], {[]});
            && Sound(DEFAULT_LIMITS, tree)
            && Apply(DEFAULT_LIMITS, tree, EditFile("a", "y", "z"))
               == (Tree(map[["a"] := "x\nz"], {[]}), true)
  {
    var tree := Tree(map[["a"] := "x\r\ny"], {[]});
    CrlfEdited();
    CrlfTree();
    ShortPath("a");
    hide Universal, Count, ReplaceFirst, Total, EncodedSize, Resolve, SafePart;
    assert tree.files[["a"] := "x\nz"] == map[["a"] := "x\nz"];
    assert ["a"][..0] == [] && Ancestors(["a"]) == {[]};
    assert tree.dirs + {[]} == {[]};
    assert !FileAncestor(tree, ["a"]);
    assert Edited(DEFAULT_LIMITS, tree, "a", "y", "z") == Ok("x\nz");
  }

  lemma ShortPath(name: string)
    requires name in {"a", "b"}
    ensures Resolve(name) == Some([name]) && Listable([name])
  {
    assert Join([name]) == name;
    ListedNamesResolve([name]);
  }

  lemma CrlfTree()
    ensures EncodedSize("x\r\ny") == 4 && EncodedSize("x\nz") == 3 && Total(map[["a"] := "x\r\ny"]) == 4
    ensures Sound(DEFAULT_LIMITS, Tree(map[["a"] := "x\r\ny"], {[]}))
  {
    var files: map<Path, string> := map[["a"] := "x\r\ny"];
    OneFileTotal(["a"], "x\r\ny");
    assert "x\r\ny"[1..] == "\r\ny" && "\r\ny"[1..] == "\ny" && "\ny"[1..] == "y" && "y"[1..] == "";
    assert "x\nz"[1..] == "\nz" && "\nz"[1..] == "z" && "z"[1..] == "";
    assert files.Keys == {["a"]} && |files| == |files.Keys|;
    ShortPath("a");
  }

  lemma CrlfEdited()
    ensures Universal("x\r\ny") == "x\ny" && Count("x\ny", "y") == 1 && ReplaceFirst("x\ny", "y", "z") == "x\nz"
  {
    CrlfDecoded();
    var u, v := "x\ny", "\ny";
    assert u[1..] == v && v[1..] == "y" && "y"[1..] == "";
    assert Count("", "y") == 0 && Count("y", "y") == 1 && Count(v, "y") == 1;
    assert ReplaceFirst("y", "y", "z") == "z" && ReplaceFirst(v, "y", "z") == "\n" + "z";
  }

  lemma CrlfDecoded()
    ensures Universal("x\r\ny") == "x\ny"
  {
    var stored := "x\r\ny";
    assert stored[1..] == "\r\ny" && stored[1..][2..] == "y" && "y"[1..] == "";
    assert Universal("y") == "y" && Universal("\r\ny") == "\n" + "y";
  }
}
