/**
 Cold-volume archives: every header is checked before anything is written, and
 what is written does not depend on the order of the members.
 */
module Archives {
  import opened Prelude
  import opened Paths

  const MAX_FILES: nat := 200_000
  const MAX_BYTES: nat := 34_359_738_368

  type Bytes = seq<bv8>

  datatype Kind = Directory | Regular | Other

  datatype Attributes = Attributes(uid: int, gid: int, mode: nat)

  datatype Member = Member(name: string, kind: Kind, attributes: Attributes, size: int, content: Bytes)

  datatype ArchiveError =
    | UnsafePath | RootNotDirectory | DuplicateOrSpecial | InvalidOwnership | OverLimits | FileAncestor
    | ChecksumMismatch | DestinationNotEmpty | SourceInvalid

  // ----------------------------------------------------------------- names

  /** Posix parsing drops empty parts and single dots. */
  function Components(parts: seq<string>): Path {
    if parts == [] then []
    else (if parts[0] == "" || parts[0] == "." then [] else [parts[0]]) + Components(parts[1..])
  }

  function MemberPath(name: string): Option<Path> {
    var path := Components(Split(name));
    if name == "" || '\\' in name || name[0] == '/' || ".." in path || ':' in name then None else Some(path)
  }

  function PathOf(m: Member): Path {
    Components(Split(m.name))
  }

  // ------------------------------------------------------------- inventory

  function TotalSize(members: seq<Member>): int {
    if members == [] then 0 else TotalSize(members[..|members| - 1]) + members[|members| - 1].size
  }

  predicate Owned(a: Attributes) {
    0 <= a.uid <= 65535 && 0 <= a.gid <= 65535
  }

  predicate Sound(m: Member) {
    && MemberPath(m.name).Some? && m.kind != Other && Owned(m.attributes) && m.size >= 0
    && (PathOf(m) == [] ==> m.kind == Directory)
  }

  predicate AllSound(members: seq<Member>) {
    forall i :: 0 <= i < |members| ==> Sound(members[i])
  }

  predicate Distinct(members: seq<Member>) {
    forall i, j :: 0 <= i < j < |members| ==> PathOf(members[i]) != PathOf(members[j])
  }

  /** No regular file is used as a directory. */
  predicate NoFileAncestor(members: seq<Member>) {
    forall i, j :: 0 <= i < |members| && 0 <= j < |members| && members[i].kind == Regular ==>
      !(PathOf(members[i]) < PathOf(members[j]))
  }

  predicate WithinLimits(members: seq<Member>) {
    TotalSize(members) <= MAX_BYTES && |members| <= MAX_FILES
  }

  /** What an archive must be to be restored, whatever the order of its members. */
  predicate Acceptable(members: seq<Member>) {
    AllSound(members) && Distinct(members) && WithinLimits(members) && NoFileAncestor(members)
  }

  function Names(members: seq<Member>): set<Path> {
    if members == [] then {} else Names(members[..|members| - 1]) + {PathOf(members[|members| - 1])}
  }

  /** The rule that `m` breaks, if any, after members with these names and this total size. */
  function Check(m: Member, names: set<Path>, total: int, count: nat): Option<ArchiveError> {
    var path := MemberPath(m.name);
    if path.None? then Some(UnsafePath)
    else if path.value == [] && m.kind != Directory then Some(RootNotDirectory)
    else if m.kind == Other || path.value in names then Some(DuplicateOrSpecial)
    else if !Owned(m.attributes) then Some(InvalidOwnership)
    else if m.size < 0 || total + m.size > MAX_BYTES || count >= MAX_FILES then Some(OverLimits)
    else None
  }

  /** The first rule that member `k` breaks, given the members before it. */
  function Fault(members: seq<Member>, k: nat): Option<ArchiveError>
    requires k < |members|
  {
    Check(members[k], Names(members[..k]), TotalSize(members[..k]), k)
  }

  lemma {:induction false} NamesOf(members: seq<Member>, p: Path)
    ensures p in Names(members) <==> exists j :: 0 <= j < |members| && PathOf(members[j]) == p
  {
    if members != [] {
      NamesOf(members[..|members| - 1], p);
    }
  }

  predicate Faultless(members: seq<Member>, n: nat)
    requires n <= |members|
  {
    forall k :: 0 <= k < n ==> Fault(members, k) == None
  }

  /** The error is the one found first: by member, then by rule. */
  predicate FirstFault(members: seq<Member>, e: ArchiveError) {
    if Faultless(members, |members|) then e == FileAncestor && !NoFileAncestor(members)
    else exists k :: 0 <= k < |members| && Faultless(members, k) && Fault(members, k) == Some(e)
  }

  lemma {:induction false} SizesAddUp(members: seq<Member>, n: nat)
    requires n <= |members| && AllSound(members)
    ensures 0 <= TotalSize(members[..n]) <= TotalSize(members)
    decreases |members|
  {
    if n == |members| {
      assert members[..n] == members;
      if n > 0 {
        SizesAddUp(members[..n - 1], n - 1);
        assert members[..n - 1][..n - 1] == members[..n - 1];
      }
    } else {
      var shorter := members[..|members| - 1];
      SizesAddUp(shorter, n);
      assert shorter[..n] == members[..n];
      assert Sound(members[|members| - 1]);
    }
  }

  lemma FaultlessAt(members: seq<Member>, k: nat)
    requires k < |members| && Fault(members, k) == None
    ensures Sound(members[k]) && TotalSize(members[..k + 1]) <= MAX_BYTES && k < MAX_FILES
    ensures forall j :: 0 <= j < k ==> PathOf(members[j]) != PathOf(members[k])
  {
    assert members[..k + 1][..k] == members[..k];
    NamesOf(members[..k], PathOf(members[k]));
    forall j | 0 <= j < k
      ensures PathOf(members[j]) != PathOf(members[k])
    {
      assert PathOf(members[j]) == PathOf(members[..k][j]);
    }
  }

  lemma AcceptableAt(members: seq<Member>, k: nat)
    requires k < |members| && AllSound(members) && Distinct(members) && WithinLimits(members)
    ensures Fault(members, k) == None
  {
    assert Sound(members[k]);
    SizesAddUp(members, k + 1);
    assert members[..k + 1][..k] == members[..k];
    NamesOf(members[..k], PathOf(members[k]));
  }

  /** The checks made member by member add up to the order-free rules. */
  lemma FaultlessIsAcceptable(members: seq<Member>)
    ensures Faultless(members, |members|) && NoFileAncestor(members) <==> Acceptable(members)
  {
    if Faultless(members, |members|) {
      forall k | 0 <= k < |members|
        ensures Sound(members[k]) && forall j :: 0 <= j < k ==> PathOf(members[j]) != PathOf(members[k])
      {
        FaultlessAt(members, k);
      }
      if members != [] {
        FaultlessAt(members, |members| - 1);
        assert members[..|members| - 1 + 1] == members;
      }
    }
    if Acceptable(members) {
      forall k | 0 <= k < |members|
        ensures Fault(members, k) == None
      {
        AcceptableAt(members, k);
      }
    }
  }

  lemma CheckingOne(members: seq<Member>, k: nat)
    requires k < |members| && Faultless(members, k)
    ensures TotalSize(members[..k + 1]) == TotalSize(members[..k]) + members[k].size
    ensures Names(members[..k + 1]) == Names(members[..k]) + {PathOf(members[k])}
    ensures match Fault(members, k)
            case None => Faultless(members, k + 1)
            case Some(e) => FirstFault(members, e) && !Acceptable(members)
  {
    assert members[..k + 1][..k] == members[..k];
    FaultlessIsAcceptable(members);
  }

  lemma AllChecked(members: seq<Member>)
    requires Faultless(members, |members|)
    ensures Acceptable(members) <==> NoFileAncestor(members)
    ensures !NoFileAncestor(members) ==> FirstFault(members, FileAncestor)
  {
    FaultlessIsAcceptable(members);
  }

  lemma PrefixIsTake(p: Path, q: Path)
    ensures p < q ==> q[..|p|] == p
  {
  }

  method HasFileAncestor(members: seq<Member>) returns (bad: bool)
    ensures bad <==> !NoFileAncestor(members)
  {
    var files := set i | 0 <= i < |members| && members[i].kind == Regular :: PathOf(members[i]);
    bad := exists j, k :: 0 <= j < |members| && 0 <= k < |PathOf(members[j])| && PathOf(members[j])[..k] in files;
    if bad {
      var j, k :| 0 <= j < |members| && 0 <= k < |PathOf(members[j])| && PathOf(members[j])[..k] in files;
      var i :| 0 <= i < |members| && members[i].kind == Regular && PathOf(members[i]) == PathOf(members[j])[..k];
      assert PathOf(members[i]) < PathOf(members[j]);
    } else {
      forall i, j | 0 <= i < |members| && 0 <= j < |members| && members[i].kind == Regular
        ensures !(PathOf(members[i]) < PathOf(members[j]))
      {
        var k := |PathOf(members[i])|;
        PrefixIsTake(PathOf(members[i]), PathOf(members[j]));
        assert PathOf(members[i]) in files;
        if k < |PathOf(members[j])| {
          assert PathOf(members[j])[..k] !in files;
        }
      }
    }
  }

  /** The checks on one member, in their order. */
  method CheckMember(item: Member, names: set<Path>, total: int, count: nat) returns (fault: Option<ArchiveError>)
    ensures fault == Check(item, names, total, count)
  {
    var path := MemberPath(item.name);
    if path == None {
      return Some(UnsafePath);
    }
    if path.value == [] && item.kind != Directory {
      return Some(RootNotDirectory);
    }
    if path.value in names || !(item.kind == Directory || item.kind == Regular) {
      return Some(DuplicateOrSpecial);
    }
    if !Owned(item.attributes) {
      return Some(InvalidOwnership);
    }
    if item.size < 0 || total + item.size > MAX_BYTES || count >= MAX_FILES {
      return Some(OverLimits);
    }
    fault := None;
  }

  method Inventory(bundle: seq<Member>) returns (r: Result<seq<Member>, ArchiveError>)
    ensures r.Ok? <==> Acceptable(bundle)
    ensures r.Ok? ==> r.value == bundle
    ensures r.Err? ==> FirstFault(bundle, r.error)
  {
    assert bundle[..0] == [] && Faultless(bundle, 0);
    var members: seq<Member> := [];
    var names: set<Path> := {};
    var total := 0;
    assert total == TotalSize(members) && names == Names(members);
    hide Faultless, FirstFault, Acceptable, NoFileAncestor, TotalSize, Names, PathOf, Check;
    for i := 0 to |bundle|
      invariant members == bundle[..i] && total == TotalSize(members) && names == Names(members)
      invariant Faultless(bundle, i)
    {
      var item := bundle[i];
      var fault := CheckMember(item, names, total, |members|);
      CheckingOne(bundle, i);
      if fault.Some? {
        return Err(fault.value);
      }
      names := names + {PathOf(item)};
      total := total + item.size;
      members := members + [item];
    }
    assert members == bundle;
    AllChecked(bundle);
    var bad := HasFileAncestor(members);
    r := if bad then Err(FileAncestor) else Ok(members);
  }

  // -------------------------------------------------------------- the tree

  datatype Node =
    | Folder(attributes: Attributes)
    | File(attributes: Attributes, content: Bytes)
    | Special

  type Tree = map<Path, Node>

  /** `p` is `q` or one of its ancestors. */
  predicate AtOrAbove(p: Path, q: Path) {
    p <= q
  }

  /** There is a root, and whatever has children is a directory. */
  ghost predicate Rooted(tree: Tree) {
    && [] in tree && tree[[]].Folder?
    && forall p, q :: p in tree && AtOrAbove(q, p) && q != p ==> q in tree && tree[q].Folder?
  }

  /** A directory tree that is changed in place. */
  class Destination {
    var tree: Tree
    const created: Attributes  // what a new file or directory gets from the process

    constructor (tree: Tree, created: Attributes)
      ensures this.tree == tree && this.created == created
    {
      this.tree, this.created := tree, created;
    }

    /** Creates a directory with its missing ancestors; an existing directory is no error. */
    method MakeDirectory(path: Path) returns (ok: bool)
      requires Rooted(tree)
      modifies this
      ensures Rooted(tree)
      ensures ok <==> forall p :: AtOrAbove(p, path) && p in old(tree) ==> old(tree)[p].Folder?
      ensures ok ==> forall p :: p in tree <==> p in old(tree) || AtOrAbove(p, path)
      ensures ok ==> forall p :: p in tree ==>
                tree[p] == if p in old(tree) then old(tree)[p] else Folder(created)
      decreases |path|
    {
      if path in tree {
        ok := tree[path].Folder?;
      } else {
        ok := MakeDirectory(path[..|path| - 1]);
        OneLonger(path);
        if ok {
          tree := tree[path := Folder(created)];
        }
      }
    }

    /** Opens a new file and writes it; an existing entry or a missing directory is an error. */
    method CreateFile(path: Path, content: Bytes) returns (ok: bool)
      requires Rooted(tree)
      modifies this
      ensures Rooted(tree)
      ensures ok <==> path !in old(tree) && path[..|path| - 1] in old(tree) && old(tree)[path[..|path| - 1]].Folder?
      ensures tree == if ok then old(tree)[path := File(created, content)] else old(tree)
    {
      ok := path !in tree && path[..|path| - 1] in tree && tree[path[..|path| - 1]].Folder?;
      if ok {
        OneLonger(path);
        tree := tree[path := File(created, content)];
      }
    }

    method SetAttributes(path: Path, attributes: Attributes)
      requires path in tree && !tree[path].Special?
      modifies this
      ensures tree == old(tree)[path := old(tree)[path].(attributes := attributes)]
    {
      tree := tree[path := tree[path].(attributes := attributes)];
    }
  }

  lemma OneLonger(path: Path)
    requires path != []
    ensures forall p :: AtOrAbove(p, path) <==> p == path || AtOrAbove(p, path[..|path| - 1])
  {
    var parent := path[..|path| - 1];
    forall p | AtOrAbove(p, path) && p != path
      ensures AtOrAbove(p, parent)
    {
      assert |p| < |path|;
      assert forall i :: 0 <= i < |p| ==> p[i] == path[i] == parent[i];
    }
  }

  // ------------------------------------------------------------ extraction

  /** Permission bits only: no set-user or set-group bit is restored. */
  function Masked(a: Attributes): Attributes {
    a.(mode := a.mode % 512)
  }

  function NodeOf(m: Member): Node {
    var attributes := Masked(m.attributes);
    if m.kind == Directory then Folder(attributes) else File(attributes, m.content)
  }

  /** Some member lies at `p` or below it. */
  predicate Above(p: Path, members: seq<Member>) {
    exists i :: 0 <= i < |members| && AtOrAbove(p, PathOf(members[i]))
  }

  predicate IsMember(p: Path, members: seq<Member>) {
    exists i :: 0 <= i < |members| && PathOf(members[i]) == p
  }

  /**
   The tree an archive stands for: its members, with the missing directories
   above them. Nothing here mentions the order of the members.
   */
  ghost predicate Holds(tree: Tree, members: seq<Member>, root: Attributes, created: Attributes) {
    && (forall p :: p in tree <==> p == [] || Above(p, members))
    && (forall i :: 0 <= i < |members| && PathOf(members[i]) in tree ==>
          tree[PathOf(members[i])] == NodeOf(members[i]))
    && (forall p :: p in tree && !IsMember(p, members) ==> tree[p] == Folder(if p == [] then root else created))
  }

  /** After the first pass: everything is there, with the process's own attributes. */
  ghost predicate Made(tree: Tree, members: seq<Member>, root: Attributes, created: Attributes) {
    && (forall p :: p in tree <==> p == [] || Above(p, members))
    && (forall i :: 0 <= i < |members| && members[i].kind == Regular && PathOf(members[i]) in tree ==>
          tree[PathOf(members[i])] == File(created, members[i].content))
    && (forall p :: p in tree && !IsRegular(p, members) ==> tree[p] == Folder(if p == [] then root else created))
  }

  predicate IsRegular(p: Path, members: seq<Member>) {
    exists i :: 0 <= i < |members| && members[i].kind == Regular && PathOf(members[i]) == p
  }

  predicate EmptyFolder(tree: Tree) {
    [] in tree && tree[[]].Folder? && tree.Keys == {[]}
  }

  lemma AboveOneMore(members: seq<Member>, k: nat, p: Path)
    requires k < |members|
    ensures Above(p, members[..k + 1]) <==> Above(p, members[..k]) || AtOrAbove(p, PathOf(members[k]))
  {
    var longer := members[..k + 1];
    if Above(p, members[..k]) {
      var i :| 0 <= i < k && AtOrAbove(p, PathOf(members[..k][i]));
      assert AtOrAbove(p, PathOf(longer[i]));
    }
    if AtOrAbove(p, PathOf(members[k])) {
      assert AtOrAbove(p, PathOf(longer[k]));
    }
    if Above(p, longer) {
      var i :| 0 <= i < k + 1 && AtOrAbove(p, PathOf(longer[i]));
      if i < k {
        assert AtOrAbove(p, PathOf(members[..k][i]));
      }
    }
  }

  lemma RegularOneMore(members: seq<Member>, k: nat, p: Path)
    requires k < |members|
    ensures IsRegular(p, members[..k + 1]) <==>
            IsRegular(p, members[..k]) || (members[k].kind == Regular && p == PathOf(members[k]))
  {
    var longer := members[..k + 1];
    if IsRegular(p, members[..k]) {
      var i :| 0 <= i < k && members[..k][i].kind == Regular && PathOf(members[..k][i]) == p;
      assert longer[i].kind == Regular && PathOf(longer[i]) == p;
    }
    if members[k].kind == Regular && p == PathOf(members[k]) {
      assert longer[k].kind == Regular && PathOf(longer[k]) == p;
    }
    if IsRegular(p, longer) {
      var i :| 0 <= i < k + 1 && longer[i].kind == Regular && PathOf(longer[i]) == p;
      if i < k {
        assert members[..k][i].kind == Regular && PathOf(members[..k][i]) == p;
      }
    }
  }

  /** What lies on the way to a member is a directory so far, and a file's own place is free. */
  lemma WayIsClear(tree: Tree, members: seq<Member>, k: nat, root: Attributes, created: Attributes, p: Path)
    requires k < |members| && Acceptable(members) && Made(tree, members[..k], root, created)
    requires AtOrAbove(p, PathOf(members[k])) && p in tree
    ensures tree[p].Folder?
    ensures members[k].kind == Regular ==> p != PathOf(members[k])
  {
    forall i | 0 <= i < k
      ensures members[..k][i].kind == Regular ==> PathOf(members[..k][i]) != p
      ensures members[k].kind == Regular && p == PathOf(members[k]) ==> !AtOrAbove(p, PathOf(members[..k][i]))
    {
      assert PathOf(members[i]) != PathOf(members[k]);
    }
    assert Sound(members[k]);
  }

  /** One member is added, with the directories it misses. */
  ghost predicate Adds(tree: Tree, after: Tree, m: Member, created: Attributes) {
    && (forall p :: p in after <==> p in tree || AtOrAbove(p, PathOf(m)))
    && (forall p :: p in after ==>
          after[p] == if m.kind == Regular && p == PathOf(m) then File(created, m.content)
                      else if p in tree then tree[p] else Folder(created))
  }

  lemma FileIsMade(
      tree: Tree, after: Tree, members: seq<Member>, k: nat, root: Attributes, created: Attributes, i: nat)
    requires k < |members| && Distinct(members) && Made(tree, members[..k], root, created)
    requires Adds(tree, after, members[k], created)
    requires i <= k && members[i].kind == Regular && PathOf(members[i]) in after
    ensures after[PathOf(members[i])] == File(created, members[i].content)
  {
    hide PathOf;
    if i < k {
      assert members[i] == members[..k][i];
      assert PathOf(members[i]) != PathOf(members[k]);
      assert AtOrAbove(PathOf(members[i]), PathOf(members[..k][i]));
      assert Above(PathOf(members[i]), members[..k]);
    }
  }

  lemma FolderIsMade(
      tree: Tree, after: Tree, members: seq<Member>, k: nat, root: Attributes, created: Attributes, p: Path)
    requires k < |members| && Made(tree, members[..k], root, created)
    requires Adds(tree, after, members[k], created)
    requires p in after && !IsRegular(p, members[..k + 1])
    ensures after[p] == Folder(if p == [] then root else created)
  {
    RegularOneMore(members, k, p);
    hide PathOf, IsRegular, Above;
  }

  lemma MadeOneMore(
      tree: Tree, after: Tree, members: seq<Member>, k: nat, root: Attributes, created: Attributes)
    requires k < |members| && Distinct(members) && Made(tree, members[..k], root, created)
    requires Adds(tree, after, members[k], created)
    ensures Made(after, members[..k + 1], root, created)
  {
    hide PathOf, IsRegular, Above, Distinct;
    var longer := members[..k + 1];
    forall p
      ensures p in after <==> p == [] || Above(p, longer)
    {
      AboveOneMore(members, k, p);
    }
    forall i | 0 <= i < k + 1 && longer[i].kind == Regular && PathOf(longer[i]) in after
      ensures after[PathOf(longer[i])] == File(created, longer[i].content)
    {
      FileIsMade(tree, after, members, k, root, created, i);
    }
    forall p | p in after && !IsRegular(p, longer)
      ensures after[p] == Folder(if p == [] then root else created)
    {
      FolderIsMade(tree, after, members, k, root, created, p);
    }
  }

  /** The second pass, from the last member down to member `i`. */
  ghost predicate Restored(tree: Tree, made: Tree, members: seq<Member>, i: nat)
    requires i <= |members|
  {
    && tree.Keys == made.Keys
    && (forall j :: i <= j < |members| && PathOf(members[j]) in tree ==> tree[PathOf(members[j])] == NodeOf(members[j]))
    && (forall p :: p in tree && !IsMember(p, members[i..]) ==> tree[p] == made[p])
  }

  lemma MemberWasMade(made: Tree, members: seq<Member>, k: nat, root: Attributes, created: Attributes)
    requires k < |members| && Acceptable(members) && Made(made, members, root, created)
    ensures var p := PathOf(members[k]);
            p in made && !made[p].Special?
            && made[p].(attributes := Masked(members[k].attributes)) == NodeOf(members[k])
  {
    var m := members[k];
    var p := PathOf(m);
    assert AtOrAbove(p, p);
    assert Above(p, members);
    assert Sound(m);
    forall i | 0 <= i < |members| && i != k
      ensures PathOf(members[i]) != p
    {
    }
  }

  lemma RestoredOneMore(tree: Tree, made: Tree, members: seq<Member>, i: nat)
    requires 0 < i <= |members| && Restored(tree, made, members, i) && Distinct(members)
    requires PathOf(members[i - 1]) in tree
    ensures Restored(tree[PathOf(members[i - 1]) := NodeOf(members[i - 1])], made, members, i - 1)
  {
    hide PathOf, NodeOf;
    var p := PathOf(members[i - 1]);
    var after := tree[p := NodeOf(members[i - 1])];
    forall q | q in after && !IsMember(q, members[i - 1..])
      ensures after[q] == made[q]
    {
      assert PathOf(members[i - 1..][0]) != q;
      forall j | 0 <= j < |members[i..]|
        ensures PathOf(members[i..][j]) != q
      {
        assert members[i..][j] == members[i - 1..][j + 1];
      }
    }
  }

  lemma NextToRestore(tree: Tree, made: Tree, members: seq<Member>, i: nat)
    requires 0 < i <= |members| && Restored(tree, made, members, i) && Distinct(members)
    requires PathOf(members[i - 1]) in made
    ensures tree[PathOf(members[i - 1])] == made[PathOf(members[i - 1])]
  {
    hide PathOf, NodeOf;
    forall j | 0 <= j < |members[i..]|
      ensures PathOf(members[i..][j]) != PathOf(members[i - 1])
    {
      assert members[i..][j] == members[i + j];
    }
  }

  lemma RestoredHolds(tree: Tree, made: Tree, members: seq<Member>, root: Attributes, created: Attributes)
    requires Made(made, members, root, created) && Restored(tree, made, members, 0)
    ensures Holds(tree, members, root, created)
  {
    assert members[0..] == members;
    forall p | p in tree && !IsMember(p, members)
      ensures !IsRegular(p, members)
    {
    }
  }

  /** Only directories lie on the way to a member, and a file's own place is free. */
  ghost predicate Clear(tree: Tree, m: Member) {
    && (m.kind == Regular ==> PathOf(m) != [] && PathOf(m) !in tree)
    && forall p :: AtOrAbove(p, PathOf(m)) && p in tree ==> tree[p].Folder?
  }

  method PlaceFile(m: Member, path: Path, target: Destination) returns (ok: bool)
    requires Rooted(target.tree) && Clear(target.tree, m) && m.kind == Regular && path == PathOf(m)
    modifies target
    ensures ok && Rooted(target.tree) && Adds(old(target.tree), target.tree, m, target.created)
  {
    hide PathOf, Rooted;
    OneLonger(path);
    var parent := path[..|path| - 1];
    assert AtOrAbove(parent, parent) && AtOrAbove(path, path) && !AtOrAbove(path, parent);
    ok := target.MakeDirectory(parent);
    assert ok;
    ok := target.CreateFile(path, m.content);
  }

  method Place(m: Member, target: Destination) returns (ok: bool)
    requires Rooted(target.tree) && Clear(target.tree, m)
    modifies target
    ensures ok && Rooted(target.tree) && Adds(old(target.tree), target.tree, m, target.created)
  {
    var path := PathOf(m);
    hide PathOf, Rooted;
    if m.kind == Regular {
      ok := PlaceFile(m, path, target);
    } else {
      ok := target.MakeDirectory(path);
    }
  }

  /** One member: never an existing file, never a file where a directory is needed. */
  method Extract(members: seq<Member>, i: nat, target: Destination, ghost root: Attributes) returns (ok: bool)
    requires i < |members| && Acceptable(members)
    requires Rooted(target.tree) && Made(target.tree, members[..i], root, target.created)
    modifies target
    ensures ok
    ensures Rooted(target.tree) && Made(target.tree, members[..i + 1], root, target.created)
  {
    assert Distinct(members);
    PlaceIsClear(members, i, target.tree, root, target.created);
    hide *;
    ghost var before := target.tree;
    ok := Place(members[i], target);
    MadeOneMore(before, target.tree, members, i, root, target.created);
  }

  lemma PlaceIsClear(members: seq<Member>, i: nat, tree: Tree, root: Attributes, created: Attributes)
    requires i < |members| && Acceptable(members) && Made(tree, members[..i], root, created)
    ensures Clear(tree, members[i])
  {
    assert Sound(members[i]);
    assert members[i].kind == Regular ==> PathOf(members[i]) != [];
    hide PathOf, Acceptable, Made, Sound;
    forall p | AtOrAbove(p, PathOf(members[i])) && p in tree
      ensures tree[p].Folder? && (members[i].kind == Regular ==> p != PathOf(members[i]))
    {
      WayIsClear(tree, members, i, root, created, p);
    }
    assert AtOrAbove(PathOf(members[i]), PathOf(members[i]));
  }

  /** Giving one more member its attributes. */
  lemma RestoreStep(
      tree: Tree, made: Tree, members: seq<Member>, i: nat, root: Attributes, created: Attributes)
    requires 0 < i <= |members| && Acceptable(members) && Made(made, members, root, created)
    requires Restored(tree, made, members, i)
    ensures var m := members[i - 1];
            var p := PathOf(m);
            && p in tree && !tree[p].Special?
            && Restored(tree[p := tree[p].(attributes := Masked(m.attributes))], made, members, i - 1)
  {
    assert Distinct(members);
    assert tree.Keys == made.Keys;
    hide *;
    MemberWasMade(made, members, i - 1, root, created);
    NextToRestore(tree, made, members, i);
    RestoredOneMore(tree, made, members, i);
  }

  method RestoreAttributes(members: seq<Member>, target: Destination, ghost root: Attributes)
    requires Acceptable(members) && Made(target.tree, members, root, target.created)
    modifies target
    ensures Holds(target.tree, members, root, target.created)
  {
    ghost var made := target.tree;
    assert Restored(made, made, members, |members|);
    hide *;
    for i := |members| downto 0
      invariant Restored(target.tree, made, members, i)
    {
      var item := members[i];
      RestoreStep(target.tree, made, members, i + 1, root, target.created);
      target.SetAttributes(PathOf(item), Masked(item.attributes));
    }
    RestoredHolds(target.tree, made, members, root, target.created);
  }

  /**
   Restores an archive into an empty directory. An accepted archive is always
   restored in full: no step meets an existing file, or a file where it needs a
   directory. A refused one leaves the destination alone. The checksum is taken
   as injective, so the archive that was expected stands for it.
   */
  method Unpack(bundle: seq<Member>, target: Destination, expected: seq<Member>) returns (r: Result<(), ArchiveError>)
    modifies target
    ensures r.Ok? <==> bundle == expected && Acceptable(bundle) && EmptyFolder(old(target.tree))
    ensures r.Ok? ==> Holds(target.tree, bundle, old(target.tree)[[]].attributes, target.created)
    ensures r.Err? ==> target.tree == old(target.tree)
  {
    if bundle != expected {
      return Err(ChecksumMismatch);
    }
    var checked := Inventory(bundle);
    if checked.Err? {
      return Err(checked.error);
    }
    var members := checked.value;
    if !EmptyFolder(target.tree) {
      return Err(DestinationNotEmpty);
    }
    ghost var root := target.tree[[]].attributes;
    for i := 0 to |members|
      invariant Rooted(target.tree) && Made(target.tree, members[..i], root, target.created)
    {
      var ok := Extract(members, i, target, root);
      assert ok;
    }
    assert members[..|members|] == members;
    RestoreAttributes(members, target, root);
    r := Ok(());
  }
}
