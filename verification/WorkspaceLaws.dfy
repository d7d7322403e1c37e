/** Exactly which paths and operations a workspace accepts, and what they leave alone. */
module WorkspaceLaws {
  import opened Prelude
  import opened Texts
  import opened Paths
  import opened Workspaces

  // ----------------------------------------------------------------- paths

  /** A name of a file or directory that stays where it is put, on any system. */
  predicate GoodName(part: string) {
    && part != "" && part != "." && part != ".."
    && part[|part| - 1] != '.' && part[|part| - 1] != ' '
    && '/' !in part && '\\' !in part && ':' !in part && '\0' !in part
  }

  /** `relative` spells `path`, with slashes of either kind between its parts. */
  predicate Spells(relative: string, path: Path) {
    && |relative| == |Join(path)|
    && forall i :: 0 <= i < |relative| ==> Join(path)[i] == if relative[i] == '\\' then '/' else relative[i]
  }

  lemma {:induction false} SlashesAt(s: string)
    ensures |ReplaceAll(s, "\\", "/")| == |s|
    ensures forall i :: 0 <= i < |s| ==> ReplaceAll(s, "\\", "/")[i] == if s[i] == '\\' then '/' else s[i]
  {
    if s != "" {
      SlashesAt(s[1..]);
      assert s[..1] == [s[0]];
    }
  }

  lemma {:induction false} JoinSplit(s: string)
    ensures Join(Split(s)) == s
  {
    if s == "" {
    } else if s[0] == '/' {
      JoinSplit(s[1..]);
      assert ([""] + Split(s[1..]))[1..] == Split(s[1..]);
    } else {
      JoinSplit(s[1..]);
      var rest := Split(s[1..]);
      JoinPrepends(s[0], rest[0], rest[1..]);
      assert [rest[0]] + rest[1..] == rest;
    }
  }

  lemma JoinPrepends(c: char, first: string, rest: Path)
    ensures Join([[c] + first] + rest) == [c] + Join([first] + rest)
  {
    if rest == [] {
      assert [[c] + first] + rest == [[c] + first] && [first] + rest == [first];
    } else {
      assert ([[c] + first] + rest)[1..] == rest && ([first] + rest)[1..] == rest;
      assert [c] + first + "/" + Join(rest) == [c] + (first + "/" + Join(rest));
    }
  }

  /** A path is accepted exactly as what it spells, and only if every part of it stays inside. */
  lemma PathsResolveExactlyWhen(relative: string, path: Path)
    ensures Resolve(relative) == Some(path) <==>
              path != [] && (forall part :: part in path ==> GoodName(part)) && Spells(relative, path)
  {
    SlashesAt(relative);
    var normalized := ReplaceAll(relative, "\\", "/");
    if Resolve(relative) == Some(path) {
      ResolvedIsListable(relative);
      JoinSplit(normalized);
    }
    if path != [] && (forall part :: part in path ==> GoodName(part)) && Spells(relative, path) {
      assert Join(path) == normalized;
      SplitJoin(path);
      JoinAvoids(path, ':');
      JoinAvoids(path, '\0');
    }
  }

  // ----------------------------------------------------------------- sizes

  /** Sizes are bytes of UTF-8: one for each ASCII character, at most four for any other, and they add up. */
  lemma {:induction false} SizesAreBytes(s: string, t: string)
    ensures EncodedSize(s + t) == EncodedSize(s) + EncodedSize(t)
    ensures |s| <= EncodedSize(s) <= 4 * |s|
    ensures EncodedSize(s) == |s| <==> forall i :: 0 <= i < |s| ==> s[i] as int < 0x80
    ensures |s| == 1 ==>
              (EncodedSize(s) <= 2 <==> s[0] as int < 0x800) && (EncodedSize(s) <= 3 <==> s[0] as int < 0x10000)
  {
    if s == "" {
      assert s + t == t;
    } else {
      SizesAreBytes(s[1..], t);
      assert (s + t)[1..] == s[1..] + t;
      assert (forall i :: 0 <= i < |s| ==> s[i] as int < 0x80) <==>
               s[0] as int < 0x80 && forall i :: 0 <= i < |s[1..]| ==> s[1..][i] as int < 0x80 by {
        assert forall i :: 0 < i < |s| ==> s[i] == s[1..][i - 1];
        assert forall i :: 0 <= i < |s[1..]| ==> s[1..][i] == s[i + 1];
      }
    }
  }

  // ------------------------------------------------------------ operations

  /** A file `a` is above `path`. */
  ghost predicate FileAbove(tree: Tree, path: Path) {
    exists a :: a in tree.files && a < path
  }

  lemma AboveIsAncestor(tree: Tree, path: Path)
    ensures FileAbove(tree, path) <==> FileAncestor(tree, path)
  {
    if FileAbove(tree, path) {
      var a :| a in tree.files && a < path;
      assert path[..|a|] == a;
    }
    if FileAncestor(tree, path) {
      var k: nat :| k < |path| && path[..k] in tree.files;
      assert path[..k] < path;
    }
  }

  /** A new file of this content has a free place and fits all three quotas. */
  ghost predicate RoomFor(limits: Limits, tree: Tree, path: Path, content: string) {
    && path !in tree.files && path !in tree.dirs
    && |tree.files| + 1 <= limits.maxFiles
    && EncodedSize(content) <= limits.maxFileBytes
    && Total(tree.files) + EncodedSize(content) <= limits.maxSourceBytes
  }

  /** A create adds one file where there was nothing, or changes nothing: it never touches an existing file. */
  lemma CreatesExactlyWhen(limits: Limits, tree: Tree, relative: string, content: string)
    ensures var (after, succeeded) := Apply(limits, tree, CreateFile(relative, content));
            && (succeeded <==>
                  && Resolve(relative).Some? && RoomFor(limits, tree, Resolve(relative).value, content)
                  && !FileAbove(tree, Resolve(relative).value))
            && (succeeded ==>
                  var path := Resolve(relative).value;
                  && after.files.Keys == tree.files.Keys + {path} && after.files[path] == content
                  && (forall p :: p in tree.files ==> after.files[p] == tree.files[p])
                  && (forall d :: d in after.dirs <==> d in tree.dirs || d < path))
            && (!succeeded ==> after == tree)
  {
    hide Resolve, EncodedSize, Total;
    if Resolve(relative).Some? {
      var path := Resolve(relative).value;
      AboveIsAncestor(tree, path);
      AncestorsAreAbove(path);
    }
  }

  lemma AncestorsAreAbove(path: Path)
    ensures forall d :: d in Ancestors(path) <==> d < path
  {
    forall d | d < path
      ensures d in Ancestors(path)
    {
      assert path[..|d|] == d;
    }
  }

  /** Room for the file, but no directory to put it in: the file system refuses, not the workspace. */
  lemma WritesRaiseExactlyWhen(limits: Limits, tree: Tree, relative: string, content: string)
    ensures Written(limits, tree, relative, content, false) == Err(NotADirectory) <==>
              Resolve(relative).Some? && RoomFor(limits, tree, Resolve(relative).value, content)
              && FileAbove(tree, Resolve(relative).value)
  {
    hide Resolve, EncodedSize, Total;
    if Resolve(relative).Some? {
      AboveIsAncestor(tree, Resolve(relative).value);
    }
  }

  /** The file is there, can be read, has one hit, and stays within its quotas with the new text. */
  ghost predicate EditFits(limits: Limits, tree: Tree, path: Path, oldText: string, newText: string) {
    && path in tree.files && EncodedSize(tree.files[path]) <= limits.maxFileBytes
    && oldText != "" && (exists i: nat :: FoundOnceAt(Universal(tree.files[path]), oldText, i))
    && var text := ReplaceFirst(Universal(tree.files[path]), oldText, newText);
       && EncodedSize(text) <= limits.maxFileBytes
       && Total(tree.files) - EncodedSize(tree.files[path]) + EncodedSize(text) <= limits.maxSourceBytes
  }

  /** An edit writes the new text over one file, or changes nothing. */
  lemma EditsExactlyWhen(limits: Limits, tree: Tree, relative: string, oldText: string, newText: string)
    requires WellFormed(tree)
    ensures var (after, succeeded) := Apply(limits, tree, EditFile(relative, oldText, newText));
            && (succeeded <==>
                  Resolve(relative).Some? && EditFits(limits, tree, Resolve(relative).value, oldText, newText))
            && (succeeded ==>
                  var path := Resolve(relative).value;
                  && after.files.Keys == tree.files.Keys && after.dirs == tree.dirs
                  && after.files[path] == ReplaceFirst(Universal(tree.files[path]), oldText, newText)
                  && forall p :: p in tree.files && p != path ==> after.files[p] == tree.files[p])
            && (!succeeded ==> after == tree)
  {
    var resolved := Resolve(relative);
    hide Resolve, EncodedSize, Total, Universal, ReplaceFirst, Count, FoundOnceAt;
    if resolved.Some? && resolved.value in tree.files {
      FilesArePrefixFree(tree, resolved.value);
      if oldText != "" {
        CountOne(Universal(tree.files[resolved.value]), oldText);
      }
    }
  }

  /** A delete removes one file and nothing else, exactly when the path names a file. */
  lemma DeletesExactlyWhen(limits: Limits, tree: Tree, relative: string)
    ensures var (after, succeeded) := Apply(limits, tree, DeleteSource(relative));
            && (succeeded <==> Resolve(relative).Some? && Resolve(relative).value in tree.files)
            && (succeeded ==>
                  && after.files.Keys == tree.files.Keys - {Resolve(relative).value} && after.dirs == tree.dirs
                  && forall p :: p in after.files ==> after.files[p] == tree.files[p])
            && (!succeeded ==> after == tree)
  {
    hide Resolve;
  }

  /** Which check a write fails first: size, path, existence, number of files, total size. */
  lemma ChecksFailExactlyWhen(limits: Limits, tree: Tree, relative: string, content: string, overwrite: bool)
    ensures var prepared := Prepared(limits, tree, relative, content, overwrite);
            var big := EncodedSize(content) > limits.maxFileBytes;
            var bad := Resolve(relative).None? || Resolve(relative).value in tree.dirs;
            && (prepared == Err(TooLarge) <==> big)
            && (prepared == Err(PathInvalid) <==> !big && bad)
            && (!big && !bad ==>
                  var path := Resolve(relative).value;
                  var there := path in tree.files;
                  var total := Total(tree.files) + EncodedSize(content)
                               - (if there then EncodedSize(tree.files[path]) else 0);
                  && (prepared == Err(FileExists) <==> there && !overwrite)
                  && (prepared == Err(FileLimit) <==> !there && |tree.files| + 1 > limits.maxFiles)
                  && (prepared == Err(SizeLimit) <==>
                        total > limits.maxSourceBytes
                        && if there then overwrite else |tree.files| + 1 <= limits.maxFiles)
                  && (prepared.Ok? ==> prepared.value == path)
                  && (prepared.Ok? <==>
                        total <= limits.maxSourceBytes
                        && if there then overwrite else |tree.files| + 1 <= limits.maxFiles))
  {
    hide Resolve, EncodedSize, Total;
  }
}
