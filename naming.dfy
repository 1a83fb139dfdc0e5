/**
 * Names given to the merged FlowFile (`createFilename`) and to archive
 * entries (`getPath`). Paths follow java.nio's Unix path syntax: runs of '/'
 * count as one separator, a trailing '/' is dropped, and the empty string is
 * a path with a single empty name.
 */
module Naming {
  import opened Wrappers
  import opened FlowFiles

  /**
   * `createFilename`: a single member keeps its own filename; otherwise the
   * first member's `segment.original.filename`, or `token` (the source's
   * `System.nanoTime()`) when that is absent.
   */
  function CreateFilename(flowFiles: seq<FlowFile>, token: string): (r: string)
    requires |flowFiles| > 0 && HasCoreAttributes(flowFiles[0])
    ensures |flowFiles| == 1 ==> r == flowFiles[0].attributes[FILENAME]
    ensures |flowFiles| > 1 && SEGMENT_ORIGINAL_FILENAME in flowFiles[0].attributes ==>
      r == flowFiles[0].attributes[SEGMENT_ORIGINAL_FILENAME]
    ensures |flowFiles| > 1 && SEGMENT_ORIGINAL_FILENAME !in flowFiles[0].attributes ==> r == token
  {
    if |flowFiles| == 1 then flowFiles[0].attributes[FILENAME]
    else flowFiles[0].Attr(SEGMENT_ORIGINAL_FILENAME).GetOr(token)
  }

  /** The pieces of s between '/' characters, empty pieces included. */
  function Split(s: string): (r: seq<string>)
    ensures |r| >= 1
  {
    if s == [] then [""]
    else if s[0] == '/' then [""] + Split(s[1..])
    else var rest := Split(s[1..]); [[s[0]] + rest[0]] + rest[1..]
  }

  function NonEmpty(pieces: seq<string>): seq<string> {
    if pieces == [] then []
    else (if pieces[0] == "" then [] else [pieces[0]]) + NonEmpty(pieces[1..])
  }

  /** The name elements of a non-empty path (`getName(0)`, `getName(1)`, ...). */
  function Names(s: string): seq<string> {
    NonEmpty(Split(s))
  }

  /** Names joined with single slashes, as `Path.toString` prints them. */
  function JoinNames(names: seq<string>): string
    requires |names| > 0
  {
    if |names| == 1 then names[0] else names[0] + "/" + JoinNames(names[1..])
  }

  predicate IsName(n: string) {
    n != "" && '/' !in n
  }

  /**
   * `getPath`: the path attribute as a directory prefix for an archive entry.
   * A path without names (the root) gives ""; a leading "." name is dropped,
   * leaving "" when it was the only name; anything else is printed and
   * followed by '/'. The empty string is a path with one empty name, so it
   * gives "/".
   */
  function GetPath(path: string): string {
    if path == "" then "/"
    else
      var names := Names(path);
      if names == [] then ""
      else if names[0] == "." then (if |names| == 1 then "" else JoinNames(names[1..]) + "/")
      else (if path[0] == '/' then "/" else "") + JoinNames(names) + "/"
  }

  /** `names` with a leading "." removed. */
  function DropLeadingDot(names: seq<string>): seq<string> {
    if |names| > 0 && names[0] == "." then names[1..] else names
  }

  // ----- Lemmas about splitting and joining -----

  lemma {:induction false} NonEmptyAppend(p: seq<string>, q: seq<string>)
    ensures NonEmpty(p + q) == NonEmpty(p) + NonEmpty(q)
  {
    if p == [] {
      assert p + q == q;
    } else {
      assert (p + q)[1..] == p[1..] + q;
      NonEmptyAppend(p[1..], q);
    }
  }

  lemma {:induction false} SplitNoSlash(s: string)
    requires '/' !in s
    ensures Split(s) == [s]
  {
    if s != [] {
      SplitNoSlash(s[1..]);
      assert [s[0]] + s[1..] == s;
    }
  }

  lemma {:induction false} SplitConcat(a: string, b: string)
    ensures Split(a + "/" + b) == Split(a) + Split(b)
  {
    if a == [] {
      assert a + "/" + b == "/" + b;
      assert ("/" + b)[1..] == b;
    } else {
      assert (a + "/" + b)[1..] == a[1..] + "/" + b;
      SplitConcat(a[1..], b);
    }
  }

  lemma {:induction false} NamesWellFormed(s: string)
    ensures forall i | 0 <= i < |Names(s)| :: IsName(Names(s)[i])
  {
    SplitWellFormed(s);
    NonEmptyKeepsNames(Split(s));
  }

  lemma {:induction false} SplitWellFormed(s: string)
    ensures forall i | 0 <= i < |Split(s)| :: '/' !in Split(s)[i]
  {
    if s != [] {
      SplitWellFormed(s[1..]);
    }
  }

  lemma {:induction false} NonEmptyKeepsNames(p: seq<string>)
    requires forall i | 0 <= i < |p| :: '/' !in p[i]
    ensures forall i | 0 <= i < |NonEmpty(p)| :: IsName(NonEmpty(p)[i])
  {
    if p != [] {
      NonEmptyKeepsNames(p[1..]);
    }
  }

  /** Joining well-formed names and reading the names back is the identity. */
  lemma {:induction false} NamesOfJoin(names: seq<string>)
    requires |names| > 0 && forall i | 0 <= i < |names| :: IsName(names[i])
    ensures Names(JoinNames(names)) == names
  {
    SplitNoSlash(names[0]);
    assert NonEmpty([names[0]]) == [names[0]] by {
      assert [names[0]][1..] == [];
    }
    if |names| > 1 {
      NamesOfJoin(names[1..]);
      SplitConcat(names[0], JoinNames(names[1..]));
      NonEmptyAppend([names[0]], Split(JoinNames(names[1..])));
      assert names == [names[0]] + names[1..];
    }
  }

  lemma NamesTrailingSlash(s: string)
    ensures Names(s + "/") == Names(s)
  {
    assert s + "/" == s + "/" + "";
    SplitConcat(s, "");
    NonEmptyAppend(Split(s), [""]);
  }

  lemma NamesLeadingSlash(s: string)
    ensures Names("/" + s) == Names(s)
  {
    assert ("/" + s)[1..] == s;
  }

  /**
   * `getPath` keeps exactly the names of a non-empty path, minus a leading
   * ".": the result is "" or a directory prefix ending in '/', it is absolute
   * exactly when the path was and still has a name left after the "." is
   * dropped from its front, and it never begins with a "." name.
   */
  lemma GetPathNames(path: string)
    requires path != ""
    ensures var r := GetPath(path);
      && Names(r) == DropLeadingDot(Names(path))
      && (r == "" <==> DropLeadingDot(Names(path)) == [])
      && (r != "" ==> r[|r| - 1] == '/')
      && (|r| > 0 && r[0] == '/' <==> path[0] == '/' && |Names(path)| > 0 && Names(path)[0] != ".")
  {
    var names := Names(path);
    NamesWellFormed(path);
    var kept := DropLeadingDot(names);
    if kept != [] {
      assert forall i | 0 <= i < |kept| :: IsName(kept[i]);
      NamesOfJoin(kept);
      var j := JoinNames(kept);
      NamesTrailingSlash(j);
      if names[0] != "." && path[0] == '/' {
        assert "/" + j + "/" == "/" + (j + "/");
        NamesLeadingSlash(j + "/");
      } else {
        assert IsName(kept[0]);
        JoinNamesHead(kept);
        assert GetPath(path) == j + "/";
      }
    }
  }

  /** A join of names starts with its first name's first character. */
  lemma JoinNamesHead(names: seq<string>)
    requires |names| > 0 && IsName(names[0])
    ensures |JoinNames(names)| > 0 && JoinNames(names)[0] == names[0][0]
  {
  }
}
