/*
 * JoinPath: path parts joined with "/", each part first losing one trailing
 * slash, and an empty part (or a lone "/") standing in as "EMPTY".
 */
module Path {
  import opened Text

  /** One part as JoinPath writes it. */
  function PathPart(part: string): (p: string)
    ensures |p| > 0
    ensures part == "" || part == "/" ==> p == "EMPTY"
    ensures part != "" && part != "/" ==> p == part || p + "/" == part
  {
    if part == "" || part == "/" then "EMPTY"
    else if part[|part| - 1] == '/' then part[..|part| - 1]
    else part
  }

  function PathParts(parts: seq<string>): (ps: seq<string>)
    ensures |ps| == |parts|
  {
    seq(|parts|, i requires 0 <= i < |parts| => PathPart(parts[i]))
  }

  function JoinPath(parts: seq<string>): string
  {
    Join(PathParts(parts), "/")
  }

  /** A part with no slash except possibly one at its end. */
  predicate Plain(part: string)
  {
    forall k :: 0 <= k < |part| - 1 ==> part[k] != '/'
  }

  /** A plain part is written without any slash, and writing it again changes nothing. */
  lemma PlainPart(part: string)
    requires Plain(part)
    ensures '/' !in PathPart(part)
    ensures PathPart(PathPart(part)) == PathPart(part)
  {
    var p := PathPart(part);
    if part != "" && part != "/" {
      assert p == part[..|p|];
      if p != part {
        assert |p| == |part| - 1;
      }
      assert forall k :: 0 <= k < |p| ==> p[k] != '/';
    }
  }

  /**
   * The joined path of plain parts splits at its slashes into exactly the
   * written parts: no part is lost, merged or split.
   */
  lemma SplitJoinPath(parts: seq<string>)
    requires |parts| > 0
    requires forall i :: 0 <= i < |parts| ==> Plain(parts[i])
    ensures Split(JoinPath(parts), '/') == PathParts(parts)
  {
    var ps := PathParts(parts);
    forall i | 0 <= i < |ps|
      ensures '/' !in ps[i]
    {
      PlainPart(parts[i]);
    }
    SplitJoin(ps, '/');
  }

  /** No part at all gives the empty path. */
  lemma NoParts()
    ensures JoinPath([]) == ""
  {
  }

  /** {"a", "b"} gives "a/b". */
  lemma ExamplePlain()
    ensures JoinPath(["a", "b"]) == "a/b"
  {
    assert PathParts(["a", "b"]) == ["a", "b"];
  }

  /** {"a/", "b"} gives "a/b" too: the trailing slash is not doubled. */
  lemma ExampleTrailingSlash()
    ensures JoinPath(["a/", "b"]) == "a/b"
  {
    assert PathPart("a/") == "a";
    assert PathParts(["a/", "b"]) == ["a", "b"];
  }

  /** Empty parts and a lone "/" are written as "EMPTY". */
  lemma ExampleEmpty()
    ensures JoinPath(["", "/", "c"]) == "EMPTY/EMPTY/c"
  {
    assert PathParts(["", "/", "c"]) == ["EMPTY", "EMPTY", "c"];
  }
}
