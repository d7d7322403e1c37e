/** Archives as a whole: member order is irrelevant, and unpacking undoes packing. */
module ArchiveLaws {
  import opened Prelude
  import opened Paths
  import opened Archives

  // ---------------------------------------------------------- member order

  lemma SameMembers(a: seq<Member>, b: seq<Member>, i: nat) returns (j: nat)
    requires multiset(a) == multiset(b) && i < |a|
    ensures j < |b| && b[j] == a[i]
  {
    assert a[i] in multiset(b);
    j :| 0 <= j < |b| && b[j] == a[i];
  }

  lemma {:induction false} SizeWithout(members: seq<Member>, k: nat)
    requires k < |members|
    ensures TotalSize(members) == TotalSize(members[..k] + members[k + 1..]) + members[k].size
    decreases |members|
  {
    var n := |members| - 1;
    var rest := members[..k] + members[k + 1..];
    if k == n {
      assert rest == members[..n];
    } else {
      SizeWithout(members[..n], k);
      assert rest[..|rest| - 1] == members[..n][..k] + members[..n][k + 1..];
    }
  }

  lemma {:induction false} SizeIgnoresOrder(a: seq<Member>, b: seq<Member>)
    requires multiset(a) == multiset(b)
    ensures TotalSize(a) == TotalSize(b)
    decreases |a|
  {
    assert |a| == |multiset(a)| == |multiset(b)| == |b|;
    if a != [] {
      var n := |a| - 1;
      var k := SameMembers(a, b, n);
      var rest := b[..k] + b[k + 1..];
      assert a == a[..n] + [a[n]];
      assert b == b[..k] + [b[k]] + b[k + 1..];
      assert multiset(a[..n]) == multiset(a) - multiset{a[n]};
      assert multiset(rest) == multiset(b) - multiset{b[k]};
      SizeIgnoresOrder(a[..n], rest);
      SizeWithout(b, k);
    }
  }

  lemma TwiceMeansTwoPlaces(a: seq<Member>, m: Member) returns (i: nat, j: nat)
    requires multiset(a)[m] >= 2
    ensures i < j < |a| && a[i] == m && a[j] == m
  {
    assert m in multiset(a);
    i :| 0 <= i < |a| && a[i] == m;
    var rest := a[..i] + a[i + 1..];
    assert a == a[..i] + [m] + a[i + 1..];
    assert multiset(a) == multiset(rest) + multiset{m};
    assert m in multiset(rest);
    var k :| 0 <= k < |rest| && rest[k] == m;
    if k < i {
      i, j := k, i;
    } else {
      j := k + 1;
    }
  }

  lemma DistinctIgnoresOrder(a: seq<Member>, b: seq<Member>)
    requires multiset(a) == multiset(b) && Distinct(a)
    ensures Distinct(b)
  {
    forall i, j | 0 <= i < j < |b|
      ensures PathOf(b[i]) != PathOf(b[j])
    {
      var k := SameMembers(b, a, i);
      var l := SameMembers(b, a, j);
      if k == l {
        assert b == b[..i] + [b[i]] + b[i + 1..j] + [b[j]] + b[j + 1..];
        assert multiset(b)[b[i]] >= 2;
        var x, y := TwiceMeansTwoPlaces(a, b[i]);
        assert false;
      }
    }
  }

  lemma AcceptableIgnoresOrder(a: seq<Member>, b: seq<Member>)
    requires multiset(a) == multiset(b) && Acceptable(a)
    ensures Acceptable(b)
  {
    assert |a| == |multiset(a)| == |multiset(b)| == |b|;
    SizeIgnoresOrder(a, b);
    DistinctIgnoresOrder(a, b);
    forall i | 0 <= i < |b|
      ensures Sound(b[i])
    {
      var k := SameMembers(b, a, i);
    }
    forall i, j | 0 <= i < |b| && 0 <= j < |b| && b[i].kind == Regular
      ensures !(PathOf(b[i]) < PathOf(b[j]))
    {
      var k := SameMembers(b, a, i);
      var l := SameMembers(b, a, j);
    }
  }

  lemma AboveIgnoresOrder(a: seq<Member>, b: seq<Member>, p: Path)
    requires multiset(a) == multiset(b)
    ensures Above(p, a) ==> Above(p, b)
    ensures IsMember(p, a) ==> IsMember(p, b)
  {
    if Above(p, a) {
      var i :| 0 <= i < |a| && AtOrAbove(p, PathOf(a[i]));
      var j := SameMembers(a, b, i);
    }
    if IsMember(p, a) {
      var i :| 0 <= i < |a| && PathOf(a[i]) == p;
      var j := SameMembers(a, b, i);
    }
  }

  lemma SameNode(
      a: seq<Member>, b: seq<Member>, first: Tree, second: Tree, root: Attributes, created: Attributes, p: Path)
    requires multiset(a) == multiset(b)
    requires Holds(first, a, root, created) && Holds(second, b, root, created)
    ensures p in first ==> p in second && second[p] == first[p]
  {
    AboveIgnoresOrder(a, b, p);
    AboveIgnoresOrder(b, a, p);
    if p in first {
      assert p in second;
      if IsMember(p, a) {
        var i :| 0 <= i < |a| && PathOf(a[i]) == p;
        var j := SameMembers(a, b, i);
        assert first[PathOf(a[i])] == NodeOf(a[i]);
        assert second[PathOf(b[j])] == NodeOf(b[j]);
      } else {
        assert first[p] == Folder(if p == [] then root else created) == second[p];
      }
    }
  }

  /** Two archives with the same members are both accepted or both refused, and restore the same tree. */
  lemma OrderDoesNotMatter(
      a: seq<Member>, b: seq<Member>, first: Tree, second: Tree, root: Attributes, created: Attributes)
    requires multiset(a) == multiset(b)
    ensures Acceptable(a) <==> Acceptable(b)
    ensures Holds(first, a, root, created) && Holds(second, b, root, created) ==> first == second
  {
    hide Acceptable, Holds;
    if Acceptable(a) {
      AcceptableIgnoresOrder(a, b);
    } else if Acceptable(b) {
      AcceptableIgnoresOrder(b, a);
    }
    if Holds(first, a, root, created) && Holds(second, b, root, created) {
      forall p
        ensures p in first <==> p in second
        ensures p in first && p in second ==> first[p] == second[p]
      {
        SameNode(a, b, first, second, root, created, p);
        SameNode(b, a, second, first, root, created, p);
      }
    }
  }

  // --------------------------------------------------------------- packing

  predicate PartName(part: string) {
    part != "" && part != "." && part != ".." && '/' !in part
  }

  /** A directory tree of a file system. */
  ghost predicate SourceTree(t: Tree) {
    && Rooted(t)
    && forall p :: p in t ==> forall i :: 0 <= i < |p| ==> PartName(p[i])
  }

  /** The walk yields every entry below the root once, in some order. */
  ghost predicate Walks(t: Tree, order: seq<Path>) {
    && (forall i, j :: 0 <= i < j < |order| ==> order[i] != order[j])
    && (forall p :: p in order <==> p in t && p != [])
  }

  function NameOf(p: Path): string {
    if p == [] then "." else Join(p)
  }

  function PackedNode(p: Path, n: Node): Member {
    match n
    case Folder(a) => Member(NameOf(p), Directory, a.(mode := a.mode % 512), 0, [])
    case File(a, content) => Member(NameOf(p), Regular, a.(mode := a.mode % 512), |content|, content)
    case Special => Member(NameOf(p), Other, Attributes(0, 0, 0), 0, [])
  }

  function Packed(t: Tree, order: seq<Path>): (r: seq<Member>)
    requires [] in t && forall i :: 0 <= i < |order| ==> order[i] in t
    ensures |r| == 1 + |order|
    ensures r[0] == PackedNode([], t[[]])
    ensures forall i :: 0 < i < |r| ==> r[i] == PackedNode(order[i - 1], t[order[i - 1]])
  {
    [PackedNode([], t[[]])] + seq(|order|, i requires 0 <= i < |order| => PackedNode(order[i], t[order[i]]))
  }

  predicate PlainName(p: Path) {
    forall i :: 0 <= i < |p| ==> '\\' !in p[i] && ':' !in p[i]
  }

  /** What a tree must be to be packed. */
  ghost predicate Packable(t: Tree, order: seq<Path>)
    requires [] in t && forall i :: 0 <= i < |order| ==> order[i] in t
  {
    && (forall p :: p in t ==> !t[p].Special? && PlainName(p) && Owned(t[p].attributes))
    && WithinLimits(Packed(t, order))
  }

  lemma {:induction false} PartsAreComponents(p: Path)
    requires forall i :: 0 <= i < |p| ==> PartName(p[i])
    ensures Components(p) == p
  {
    if p != [] {
      PartsAreComponents(p[1..]);
    }
  }

  lemma {:induction false} JoinAvoidsAtEnds(p: Path)
    requires p != [] && forall i :: 0 <= i < |p| ==> PartName(p[i])
    ensures Join(p) != "" && Join(p)[0] != '/'
  {
    assert PartName(p[0]);
  }

  lemma {:induction false} JoinKeeps(p: Path, i: nat, c: char)
    requires i < |p| && c in p[i]
    ensures c in Join(p)
  {
    if |p| > 1 {
      if i > 0 {
        JoinKeeps(p[1..], i - 1, c);
        assert Join(p) == p[0] + "/" + Join(p[1..]);
      } else {
        assert Join(p) == p[0] + ("/" + Join(p[1..]));
      }
    }
  }

  /** A packed name is read back as the path it was made from. */
  lemma NameReadsBack(p: Path)
    requires forall i :: 0 <= i < |p| ==> PartName(p[i])
    ensures Components(Split(NameOf(p))) == p
    ensures MemberPath(NameOf(p)).Some? <==> PlainName(p)
  {
    if p == [] {
      var dot := ".";
      assert dot[1..] == "";
      assert Split(dot[1..]) == [""];
      var rest := Split(dot[1..]);
      assert [dot[0]] + rest[0] == dot;
      assert Split(dot) == [[dot[0]] + rest[0]] + rest[1..] == [dot];
      assert Components([dot]) == Components([dot][1..]);
    } else {
      forall part | part in p
        ensures '/' !in part && part != ".."
      {
        var i :| 0 <= i < |p| && p[i] == part;
        assert PartName(p[i]);
      }
      SplitJoin(p);
      PartsAreComponents(p);
      JoinAvoidsAtEnds(p);
      if PlainName(p) {
        JoinAvoids(p, '\\');
        JoinAvoids(p, ':');
      } else {
        var i :| 0 <= i < |p| && ('\\' in p[i] || ':' in p[i]);
        JoinKeeps(p, i, if '\\' in p[i] then '\\' else ':');
      }
    }
  }

  lemma PackedNodeName(p: Path, n: Node)
    requires forall i :: 0 <= i < |p| ==> PartName(p[i])
    ensures PathOf(PackedNode(p, n)) == p
    ensures MemberPath(PackedNode(p, n).name).Some? <==> PlainName(p)
  {
    NameReadsBack(p);
    hide NameOf, Split, Components, PlainName, PartName;
  }

  lemma PackedMember(t: Tree, order: seq<Path>, i: nat)
    requires SourceTree(t) && Walks(t, order) && i <= |order|
    ensures var p := if i == 0 then [] else order[i - 1];
            p in t && Packed(t, order)[i] == PackedNode(p, t[p]) && PathOf(Packed(t, order)[i]) == p
            && (MemberPath(Packed(t, order)[i].name).Some? <==> PlainName(p))
  {
    var p := if i == 0 then [] else order[i - 1];
    if i > 0 {
      assert order[i - 1] in order;
    }
    assert p in t && forall k :: 0 <= k < |p| ==> PartName(p[k]);
    hide PathOf, MemberPath, PackedNode, PlainName, PartName;
    PackedNodeName(p, t[p]);
  }

  lemma WalkReaches(t: Tree, order: seq<Path>, p: Path) returns (i: nat)
    requires SourceTree(t) && Walks(t, order) && p in t
    ensures i <= |order| && p == if i == 0 then [] else order[i - 1]
  {
    if p == [] {
      i := 0;
    } else {
      assert p in order;
      var k :| 0 <= k < |order| && order[k] == p;
      i := k + 1;
    }
  }

  lemma PackedHasShape(t: Tree, order: seq<Path>)
    requires SourceTree(t) && Walks(t, order)
    ensures Distinct(Packed(t, order)) && NoFileAncestor(Packed(t, order))
  {
    var members := Packed(t, order);
    forall i, j | 0 <= i < j < |members|
      ensures PathOf(members[i]) != PathOf(members[j])
    {
      PackedMember(t, order, i);
      PackedMember(t, order, j);
      assert order[j - 1] in order;
    }
    forall i, j | 0 <= i < |members| && 0 <= j < |members| && members[i].kind == Regular
      ensures !(PathOf(members[i]) < PathOf(members[j]))
    {
      PackedMember(t, order, i);
      PackedMember(t, order, j);
      assert AtOrAbove(PathOf(members[i]), PathOf(members[j])) <==> PathOf(members[i]) <= PathOf(members[j]);
    }
  }

  /** The inventory at the end of packing accepts exactly the packable trees. */
  lemma PackedIsAcceptable(t: Tree, order: seq<Path>)
    requires SourceTree(t) && Walks(t, order)
    ensures Acceptable(Packed(t, order)) <==> Packable(t, order)
  {
    var members := Packed(t, order);
    PackedHasShape(t, order);
    if Packable(t, order) {
      forall i | 0 <= i < |members|
        ensures Sound(members[i])
      {
        PackedMember(t, order, i);
      }
    }
    if Acceptable(members) {
      forall p | p in t
        ensures !t[p].Special? && PlainName(p) && Owned(t[p].attributes)
      {
        var i := WalkReaches(t, order, p);
        PackedMember(t, order, i);
        assert Sound(members[i]);
      }
    }
  }

  /** Packing keeps everything but the permission bits above 0o777. */
  function Stripped(n: Node): Node {
    match n
    case Folder(a) => Folder(a.(mode := a.mode % 512))
    case File(a, content) => File(a.(mode := a.mode % 512), content)
    case Special => Special
  }

  /** What unpacking is to give back. */
  function Restorable(t: Tree): Tree {
    map p | p in t :: Stripped(t[p])
  }

  lemma NodeIsRestored(
      t: Tree, order: seq<Path>, restored: Tree, root: Attributes, created: Attributes, p: Path)
    requires SourceTree(t) && Walks(t, order) && p in t
    ensures !t[p].Special? && Holds(restored, Packed(t, order), root, created) ==>
              p in restored && restored[p] == Stripped(t[p])
  {
    var i := WalkReaches(t, order, p);
    PackedMember(t, order, i);
    if !t[p].Special? && Holds(restored, Packed(t, order), root, created) {
      HeldMember(restored, Packed(t, order), i, root, created);
      PackedNodeBack(p, t[p]);
    }
  }

  lemma HeldMember(tree: Tree, members: seq<Member>, i: nat, root: Attributes, created: Attributes)
    requires i < |members| && Holds(tree, members, root, created)
    ensures PathOf(members[i]) in tree && tree[PathOf(members[i])] == NodeOf(members[i])
  {
    var p := PathOf(members[i]);
    assert AtOrAbove(p, PathOf(members[i]));
    assert Above(p, members);
  }

  lemma PackedNodeBack(p: Path, n: Node)
    requires !n.Special?
    ensures NodeOf(PackedNode(p, n)) == Stripped(n)
  {
  }

  lemma OnlyMembersHeld(tree: Tree, members: seq<Member>, root: Attributes, created: Attributes, p: Path)
    ensures Holds(tree, members, root, created) && p in tree ==> p == [] || Above(p, members)
  {
  }

  lemma NothingIsAdded(t: Tree, order: seq<Path>, p: Path)
    requires SourceTree(t) && Walks(t, order)
    ensures Above(p, Packed(t, order)) ==> p in t
  {
    if Above(p, Packed(t, order)) {
      var i :| 0 <= i < |Packed(t, order)| && AtOrAbove(p, PathOf(Packed(t, order)[i]));
      PackedMember(t, order, i);
    }
  }

  lemma HeldIsRestored(t: Tree, order: seq<Path>, restored: Tree, root: Attributes, created: Attributes)
    requires SourceTree(t) && Walks(t, order)
    requires forall p :: p in t ==> !t[p].Special?
    requires Holds(restored, Packed(t, order), root, created)
    ensures restored == Restorable(t)
  {
    hide *;
    WalkStaysInside(t, order);
    forall p | p in t
      ensures p in restored && restored[p] == Stripped(t[p])
    {
      NodeIsRestored(t, order, restored, root, created, p);
    }
    forall p | p in restored
      ensures p in t
    {
      OnlyMembersHeld(restored, Packed(t, order), root, created, p);
      NothingIsAdded(t, order, p);
    }
    SameTree(t, restored);
  }

  lemma SameTree(t: Tree, restored: Tree)
    requires forall p :: p in t ==> p in restored && restored[p] == Stripped(t[p])
    requires forall p :: p in restored ==> p in t
    ensures restored == Restorable(t)
  {
    hide Stripped;
  }

  /** Unpacking what was packed restores the tree, whatever the destination's own defaults. */
  lemma UnpackUndoesPack(
      t: Tree, order: seq<Path>, restored: Tree, root: Attributes, created: Attributes)
    requires SourceTree(t) && Walks(t, order)
    ensures Packable(t, order) && Holds(restored, Packed(t, order), root, created) ==>
              restored == Restorable(t)
  {
    WalkStaysInside(t, order);
    if Packable(t, order) && Holds(restored, Packed(t, order), root, created) {
      assert forall p :: p in t ==> !t[p].Special?;
      hide *;
      HeldIsRestored(t, order, restored, root, created);
    }
  }

  /**
   The trees that pass the walk and fail the inventory: nothing special and
   within the limits, but an entry whose name or owner an archive may not have.
   */
  ghost predicate LeftBehind(t: Tree, order: seq<Path>)
    requires [] in t && forall i :: 0 <= i < |order| ==> order[i] in t
  {
    && (forall p :: p in t ==> !t[p].Special?)
    && WithinLimits(Packed(t, order))
    && exists p :: p in t && !(PlainName(p) && Owned(t[p].attributes))
  }

  /** A directory with one empty file called "a:b" is left behind. */
  lemma ColonLeavesArchiveBehind()
    ensures var t, order := OneFile("a:b"), [["a:b"]];
            SourceTree(t) && Walks(t, order) && LeftBehind(t, order)
  {
    var name := "a:b";
    assert name[1] == ':';
    OneFileLeftBehind(name);
  }

  function OneFile(name: string): Tree {
    map[[] := Folder(Attributes(0, 0, 0)), [name] := File(Attributes(0, 0, 0), [])]
  }

  lemma OneFileTree(name: string)
    requires PartName(name)
    ensures SourceTree(OneFile(name)) && Walks(OneFile(name), [[name]])
  {
    hide PartName;
  }

  lemma OneFileLeftBehind(name: string)
    requires PartName(name) && ':' in name
    ensures SourceTree(OneFile(name)) && Walks(OneFile(name), [[name]]) && LeftBehind(OneFile(name), [[name]])
  {
    var t, order := OneFile(name), [[name]];
    OneFileTree(name);
    hide PartName, NameOf, Owned, SourceTree, Walks;
    assert !PlainName([name]) by { assert ':' in [name][0]; }
    assert [name] in t;
    var members := Packed(t, order);
    assert members[..1][..0] == [] && members[..2] == members;
    WalkStep(members, 0);
    WalkStep(members, 1);
  }

  /**
   Packs a tree into a new archive. A failure during the walk removes the
   archive; a failure of the final inventory leaves it behind.
   */
  method Pack(t: Tree, order: seq<Path>, existing: Option<seq<Member>>)
    returns (r: Result<nat, ArchiveError>, archive: Option<seq<Member>>)
    requires SourceTree(t) && Walks(t, order)
    ensures r.Ok? <==> existing == None && Packable(t, order)
    ensures r.Ok? ==> archive == Some(Packed(t, order)) && r.value == |order| + 1
    ensures existing != None ==> archive == existing
    ensures r.Err? && existing == None ==>
              (archive == None <==> (exists p :: p in t && t[p].Special?) || !WithinLimits(Packed(t, order)))
    ensures existing == None ==> (r.Err? && archive != None <==> LeftBehind(t, order))
  {
    if existing != None {
      return Err(SourceInvalid), existing;
    }
    PackedIsAcceptable(t, order);
    WalkSucceedsMeans(t, order);
    WalkStaysInside(t, order);
    var walked := Walk(t, order);
    if walked.Err? {
      return Err(walked.error), None;
    }
    var checked := Inventory(walked.value);
    archive := Some(walked.value);
    r := if checked.Ok? then Ok(|walked.value|) else Err(checked.error);
  }

  ghost predicate WalkSucceeds(t: Tree, order: seq<Path>)
    requires SourceTree(t) && Walks(t, order)
  {
    WithinLimits(Packed(t, order)) && NoSpecial(t, order, |order|)
  }

  predicate NoSpecial(t: Tree, order: seq<Path>, n: nat)
    requires n <= |order| && forall i :: 0 <= i < |order| ==> order[i] in t
  {
    forall i :: 0 <= i < n ==> !t[order[i]].Special?
  }

  lemma WalkSucceedsMeans(t: Tree, order: seq<Path>)
    requires SourceTree(t) && Walks(t, order)
    ensures WalkSucceeds(t, order) <==> WithinLimits(Packed(t, order)) && forall p :: p in t ==> !t[p].Special?
  {
    if WalkSucceeds(t, order) {
      forall p | p in t
        ensures !t[p].Special?
      {
        var i := WalkReaches(t, order, p);
      }
    }
    if forall p :: p in t ==> !t[p].Special? {
      forall i | 0 <= i < |order|
        ensures !t[order[i]].Special?
      {
        assert order[i] in order;
      }
    }
  }

  lemma WalkStep(whole: seq<Member>, n: nat)
    requires n < |whole|
    ensures whole[..n + 1] == whole[..n] + [whole[n]]
    ensures TotalSize(whole[..n + 1]) == TotalSize(whole[..n]) + whole[n].size
  {
    assert whole[..n + 1][..n] == whole[..n];
  }

  lemma WalkStaysInside(t: Tree, order: seq<Path>)
    requires SourceTree(t) && Walks(t, order)
    ensures [] in t && forall i :: 0 <= i < |order| ==> order[i] in t
  {
    forall i | 0 <= i < |order|
      ensures order[i] in t
    {
      assert order[i] in order;
    }
  }

  /** The loop over the entries, with its running count and size. */
  method Walk(t: Tree, order: seq<Path>) returns (r: Result<seq<Member>, ArchiveError>)
    requires SourceTree(t) && Walks(t, order)
    ensures r.Ok? <==> WalkSucceeds(t, order)
    ensures r.Ok? ==> r.value == Packed(t, order)
  {
    WalkStaysInside(t, order);
    PackedStart(t, order);
    assert NoSpecial(t, order, 0);
    hide Walks, SourceTree, PackedNode, PackedSoFar, TotalSize, NoSpecial, WalkSucceeds;
    var bundle := [PackedNode([], t[[]])];
    var count, size := 1, 0;
    for i := 0 to |order|
      invariant bundle == PackedSoFar(t, order, i) && count == i + 1 && size == TotalSize(bundle)
      invariant count <= MAX_FILES && size <= MAX_BYTES
      invariant NoSpecial(t, order, i)
    {
      var path := order[i];
      SpecialOrNot(t, order, i);
      if t[path].Special? {
        return Err(SourceInvalid);
      }
      var item := PackedNode(path, t[path]);
      PackedStep(t, order, i);
      bundle := bundle + [item];
      size := size + item.size;
      count := count + 1;
      if count > MAX_FILES || size > MAX_BYTES {
        TooMuch(t, order, i + 1);
        return Err(OverLimits);
      }
    }
    WalkDone(t, order);
    r := Ok(bundle);
  }

  /** The members written after `n` entries. */
  ghost function PackedSoFar(t: Tree, order: seq<Path>, n: nat): seq<Member>
    requires n <= |order| && [] in t && forall i :: 0 <= i < |order| ==> order[i] in t
  {
    Packed(t, order)[..n + 1]
  }

  lemma PackedStart(t: Tree, order: seq<Path>)
    requires [] in t && t[[]].Folder? && forall i :: 0 <= i < |order| ==> order[i] in t
    ensures PackedSoFar(t, order, 0) == [PackedNode([], t[[]])]
    ensures TotalSize([PackedNode([], t[[]])]) == 0
  {
    var root := [PackedNode([], t[[]])];
    assert root[..0] == [];
  }

  lemma PackedStep(t: Tree, order: seq<Path>, n: nat)
    requires n < |order| && [] in t && forall i :: 0 <= i < |order| ==> order[i] in t
    ensures var item := PackedNode(order[n], t[order[n]]);
            && PackedSoFar(t, order, n + 1) == PackedSoFar(t, order, n) + [item]
            && TotalSize(PackedSoFar(t, order, n + 1)) == TotalSize(PackedSoFar(t, order, n)) + item.size
  {
    WalkStep(Packed(t, order), n + 1);
  }

  lemma WalkDone(t: Tree, order: seq<Path>)
    requires SourceTree(t) && Walks(t, order)
    requires forall i :: 0 <= i < |order| ==> order[i] in t
    requires [] in t
    ensures PackedSoFar(t, order, |order|) == Packed(t, order)
    ensures NoSpecial(t, order, |order|) && |order| + 1 <= MAX_FILES && TotalSize(Packed(t, order)) <= MAX_BYTES ==>
              WalkSucceeds(t, order)
  {
  }

  lemma SpecialOrNot(t: Tree, order: seq<Path>, i: nat)
    requires SourceTree(t) && Walks(t, order)
    requires i < |order| && forall k :: 0 <= k < |order| ==> order[k] in t
    ensures t[order[i]].Special? ==> !WalkSucceeds(t, order)
    ensures NoSpecial(t, order, i + 1) <==> NoSpecial(t, order, i) && !t[order[i]].Special?
  {
  }

  lemma TooMuch(t: Tree, order: seq<Path>, n: nat)
    requires SourceTree(t) && Walks(t, order) && n <= |order|
    requires [] in t && forall i :: 0 <= i < |order| ==> order[i] in t
    requires n + 1 > MAX_FILES || TotalSize(PackedSoFar(t, order, n)) > MAX_BYTES
    ensures !WalkSucceeds(t, order)
  {
    PackedSizes(t, order);
    hide PackedNode, TotalSize, SourceTree, Walks, Packed, NoSpecial;
    SizesGrow(Packed(t, order), n + 1);
  }

  lemma PackedSizes(t: Tree, order: seq<Path>)
    requires [] in t && forall i :: 0 <= i < |order| ==> order[i] in t
    ensures forall i :: 0 <= i < |Packed(t, order)| ==> Packed(t, order)[i].size >= 0
  {
  }

  lemma {:induction false} SizesGrow(members: seq<Member>, n: nat)
    requires n <= |members| && forall i :: 0 <= i < |members| ==> members[i].size >= 0
    ensures TotalSize(members[..n]) <= TotalSize(members)
    decreases |members|
  {
    if n == |members| {
      assert members[..n] == members;
    } else {
      SizesGrow(members[..|members| - 1], n);
      assert members[..|members| - 1][..n] == members[..n];
    }
  }

  // ---------------------------------------------------- what is acceptable

  /** The parts of a path are those of its name, but for empty ones and single dots. */
  lemma {:induction false} PartsAreKeptExactly(a: seq<string>, b: seq<string>, part: string)
    ensures Components(a + b) == Components(a) + Components(b)
    ensures Components([part]) == if part == "" || part == "." then [] else [part]
    ensures Components([]) == []
  {
    assert [part][1..] == [];
    if a == [] {
      assert a + b == b;
    } else {
      PartsAreKeptExactly(a[1..], b, part);
      assert (a + b)[1..] == a[1..] + b;
    }
  }

  /** A name that stays inside the destination. */
  predicate Inside(name: string) {
    && name != "" && name[0] != '/' && '\\' !in name && ':' !in name
    && forall part :: part in Split(name) ==> part != ".."
  }

  /** A member that may be restored, whatever else the archive holds. */
  predicate Harmless(m: Member) {
    && Inside(m.name) && (m.kind == Directory || m.kind == Regular)
    && 0 <= m.attributes.uid <= 65535 && 0 <= m.attributes.gid <= 65535 && m.size >= 0
    && ((forall part :: part in Split(m.name) ==> part == "" || part == ".") ==> m.kind == Directory)
  }

  lemma {:induction false} ComponentsAre(parts: seq<string>)
    ensures forall part :: part in Components(parts) <==> part in parts && part != "" && part != "."
    ensures Components(parts) == [] <==> forall part :: part in parts ==> part == "" || part == "."
  {
    if parts != [] {
      ComponentsAre(parts[1..]);
      assert forall part :: part in parts <==> part == parts[0] || part in parts[1..];
    }
    if Components(parts) != [] {
      assert Components(parts)[0] in Components(parts);
    }
  }

  lemma SoundIsHarmless(m: Member)
    ensures Sound(m) <==> Harmless(m)
  {
    ComponentsAre(Split(m.name));
    hide Components, Split;
  }

  /**
   An archive is accepted exactly when each member stays inside, is a plain file
   or directory with an ordinary owner, no path occurs twice, none lies below a
   file, and the whole is at most 200,000 members and 32 GiB.
   */
  lemma ArchivesAreAcceptedExactlyWhen(members: seq<Member>)
    ensures Acceptable(members) <==>
              && (forall i :: 0 <= i < |members| ==> Harmless(members[i]))
              && (forall i, j :: 0 <= i < |members| && 0 <= j < |members| && i != j ==>
                    PathOf(members[i]) != PathOf(members[j]))
              && (forall i, j :: 0 <= i < |members| && 0 <= j < |members| && members[i].kind == Regular ==>
                    !(PathOf(members[i]) < PathOf(members[j])))
              && |members| <= 200_000 && TotalSize(members) <= 32 * 1024 * 1024 * 1024
  {
    forall i | 0 <= i < |members|
      ensures Sound(members[i]) <==> Harmless(members[i])
    {
      SoundIsHarmless(members[i]);
    }
    hide Sound, Harmless, PathOf, TotalSize;
  }

  /** Which rule a member breaks first: its name, the root, its kind or place, its owner, the limits. */
  lemma MembersAreRefusedExactlyWhen(m: Member, names: set<Path>, total: int, count: nat)
    ensures var e := Check(m, names, total, count);
            var root := PathOf(m) == [] && m.kind != Directory;
            var taken := m.kind == Other || PathOf(m) in names;
            var owned := 0 <= m.attributes.uid <= 65535 && 0 <= m.attributes.gid <= 65535;
            var fits := m.size >= 0 && total + m.size <= 32 * 1024 * 1024 * 1024 && count + 1 <= 200_000;
            && (e == Some(UnsafePath) <==> !Inside(m.name))
            && (e == Some(RootNotDirectory) <==> Inside(m.name) && root)
            && (e == Some(DuplicateOrSpecial) <==> Inside(m.name) && !root && taken)
            && (e == Some(InvalidOwnership) <==> Inside(m.name) && !root && !taken && !owned)
            && (e == Some(OverLimits) <==> Inside(m.name) && !root && !taken && owned && !fits)
            && (e == None <==> Inside(m.name) && !root && !taken && owned && fits)
  {
    ComponentsAre(Split(m.name));
    hide Components, Split;
  }

  /** What a member becomes: its owner and content, and the nine permission bits of its mode. */
  lemma MembersAreRestoredExactly(m: Member)
    ensures NodeOf(m).Folder? <==> m.kind == Directory
    ensures NodeOf(m).File? <==> m.kind != Directory
    ensures m.kind != Directory ==> NodeOf(m).content == m.content
    ensures NodeOf(m).attributes == Attributes(m.attributes.uid, m.attributes.gid, m.attributes.mode % 0x200)
  {
  }

  /** How one entry of a directory tree is packed: under its own name, with its owner, permission bits and content. */
  lemma EntriesArePackedExactly(p: Path, n: Node)
    requires !n.Special? && forall i :: 0 <= i < |p| ==> PartName(p[i])
    ensures var m := PackedNode(p, n);
            && PathOf(m) == p && (p == [] ==> m.name == ".")
            && m.attributes == Attributes(n.attributes.uid, n.attributes.gid, n.attributes.mode % 0x200)
            && (n.Folder? ==> m.kind == Directory && m.size == 0 && m.content == [])
            && (n.File? ==> m.kind == Regular && m.size == |n.content| && m.content == n.content)
  {
    PackedNodeName(p, n);
  }
}
