/** Relative paths as sequences of components, and their posix spelling. */
module Paths {
  /** The components of a relative path, outermost first. */
  type Path = seq<string>

  function Split(s: string): (parts: seq<string>)
    ensures |parts| > 0
  {
    if s == "" then [""]
    else if s[0] == '/' then [""] + Split(s[1..])
    else
      var rest := Split(s[1..]);
      [[s[0]] + rest[0]] + rest[1..]
  }

  function Join(path: Path): string {
    if path == [] then ""
    else if |path| == 1 then path[0]
    else path[0] + "/" + Join(path[1..])
  }

  lemma {:induction false} SplitPrepends(part: string, s: string)
    requires '/' !in part
    ensures Split(part + s) == [part + Split(s)[0]] + Split(s)[1..]
  {
    if part == "" {
      assert part + s == s;
      assert part + Split(s)[0] == Split(s)[0];
    } else {
      SplitPrepends(part[1..], s);
      assert (part + s)[1..] == part[1..] + s;
      assert [part[0]] + (part[1..] + Split(s)[0]) == part + Split(s)[0];
    }
  }

  lemma {:induction false} SplitJoin(path: Path)
    requires path != [] && forall part :: part in path ==> '/' !in part
    ensures Split(Join(path)) == path
  {
    if |path| == 1 {
      SplitPrepends(path[0], "");
      assert path[0] + "" == path[0];
    } else {
      SplitJoin(path[1..]);
      SplitPrepends(path[0], "/" + Join(path[1..]));
      assert ("/" + Join(path[1..]))[1..] == Join(path[1..]);
      assert path[0] + ("/" + Join(path[1..])) == path[0] + "/" + Join(path[1..]);
      assert path[0] + "" == path[0];
    }
  }

  lemma {:induction false} JoinAvoids(path: Path, c: char)
    requires c != '/' && forall part :: part in path ==> c !in part
    ensures c !in Join(path)
  {
    if |path| > 1 {
      JoinAvoids(path[1..], c);
    }
  }

  lemma {:induction false} SplitParts(s: string, part: string)
    requires part in Split(s)
    ensures '/' !in part && forall c :: c in part ==> c in s
  {
    if s != "" {
      var rest := Split(s[1..]);
      if s[0] == '/' {
        if part != "" {
          assert part in rest;
          SplitParts(s[1..], part);
        }
      } else if part == [s[0]] + rest[0] {
        SplitParts(s[1..], rest[0]);
      } else {
        assert part in rest[1..];
        SplitParts(s[1..], part);
      }
    }
  }
}
