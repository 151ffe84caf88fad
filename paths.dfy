/**
 * The part of Python's `pathlib.PurePosixPath` the generator relies on:
 * building a path from a string, joining with `/`, `.name`, `.suffix`
 * and `.stem`.
 */
module Paths {
  import opened Wrappers

  /**
   * A path: its root and its components. The root is `""` for a relative
   * path, `"/"`, or `"//"`: POSIX leaves a path starting with exactly two
   * slashes to the implementation, and `PurePosixPath` keeps that root.
   */
  datatype PurePath = PurePath(root: string, parts: seq<string>)

  /** The roots `PurePosixPath` can give a path. */
  predicate IsRoot(r: string) {
    r == "" || r == "/" || r == "//"
  }

  /** A component as `PurePosixPath` keeps one: not empty, not `.`, no separator. */
  predicate IsComponent(s: string) {
    s != "" && s != "." && '/' !in s
  }

  predicate WellFormed(p: PurePath) {
    && IsRoot(p.root)
    && forall i :: 0 <= i < |p.parts| ==> IsComponent(p.parts[i])
  }

  /** Index of the first `/` in `s`. */
  function FirstSlash(s: string): (i: nat)
    requires '/' in s
    ensures i < |s| && s[i] == '/' && '/' !in s[..i]
  {
    if s[0] == '/' then 0
    else
      var i := 1 + FirstSlash(s[1..]);
      assert s[..i] == [s[0]] + s[1..][..i - 1];
      i
  }

  /** `s.split('/')`: the pieces between separators, empty ones included. */
  function Segments(s: string): (r: seq<string>)
    ensures |r| >= 1
    ensures forall i :: 0 <= i < |r| ==> '/' !in r[i]
    decreases |s|
  {
    if '/' !in s then [s]
    else
      var i := FirstSlash(s);
      [s[..i]] + Segments(s[i + 1..])
  }

  /** The segments `PurePosixPath` keeps: empty and `.` segments are dropped. */
  function Components(segs: seq<string>): (r: seq<string>)
    requires forall i :: 0 <= i < |segs| ==> '/' !in segs[i]
    ensures forall i :: 0 <= i < |r| ==> IsComponent(r[i])
  {
    if segs == [] then []
    else (if IsComponent(segs[0]) then [segs[0]] else []) + Components(segs[1..])
  }

  /**
   * The root of `PurePosixPath(s)`: `//` for exactly two leading slashes,
   * `/` for one or for three and more.
   */
  function RootOf(s: string): (r: string)
    ensures IsRoot(r)
    ensures r == "" <==> (s == "" || s[0] != '/')
    ensures r == "//" <==> (|s| >= 2 && s[..2] == "//" && (|s| == 2 || s[2] != '/'))
  {
    if s == "" || s[0] != '/' then ""
    else if |s| >= 2 && s[1] == '/' && (|s| == 2 || s[2] != '/') then "//"
    else "/"
  }

  /** `PurePosixPath(s)`. */
  function Parse(s: string): (p: PurePath)
    ensures WellFormed(p)
  {
    PurePath(RootOf(s), Components(Segments(s)))
  }

  /** The components joined by `/`. */
  function JoinParts(parts: seq<string>): string
    requires parts != []
  {
    if |parts| == 1 then parts[0] else parts[0] + "/" + JoinParts(parts[1..])
  }

  /** `str(p)`: `.` for the empty relative path. */
  function Format(p: PurePath): string {
    if p.parts == [] then (if p.root == "" then "." else p.root)
    else p.root + JoinParts(p.parts)
  }

  /** `a / b`: a rooted right operand replaces the left one. */
  function Join(a: PurePath, b: PurePath): PurePath {
    if b.root != "" then b else PurePath(a.root, a.parts + b.parts)
  }

  /** `p / name` for a string operand. */
  function Child(p: PurePath, name: string): PurePath {
    Join(p, Parse(name))
  }

  /** `p.name`: the last component, `""` when there is none. */
  function Name(p: PurePath): string {
    if p.parts == [] then "" else p.parts[|p.parts| - 1]
  }

  /** `name.rfind('.')`. */
  function LastDot(name: string): (i: int)
    ensures -1 <= i < |name|
    ensures i >= 0 ==> name[i] == '.'
    ensures forall k :: i < k < |name| ==> name[k] != '.'
  {
    if name == [] then -1
    else if name[|name| - 1] == '.' then |name| - 1
    else LastDot(name[..|name| - 1])
  }

  /** `PurePath(name).suffix`: from the last dot on, unless that dot leads or ends the name. */
  function Suffix(name: string): (r: string)
    ensures r == "" || (|r| >= 2 && r[0] == '.' && '.' !in r[1..])
    ensures |r| <= |name| && name[|name| - |r|..] == r
  {
    var i := LastDot(name);
    if 0 < i < |name| - 1 then name[i..] else ""
  }

  /**
   * pathlib's rule: a name has a suffix exactly when it has a dot after its
   * first character and does not end in a dot, and the suffix then runs from
   * the last dot to the end.
   */
  lemma SuffixRule(name: string)
    ensures Suffix(name) != "" <==>
      name != "" && name[|name| - 1] != '.' && exists i :: 0 < i < |name| && name[i] == '.'
    ensures Suffix(name) != "" ==> Suffix(name) == name[LastDot(name)..]
  {
    if name != "" && name[|name| - 1] != '.' && exists i :: 0 < i < |name| && name[i] == '.' {
      var k :| 0 < k < |name| && name[k] == '.';
      assert k <= LastDot(name);
    }
  }

  /** `PurePath(name).stem`: the name without its suffix. */
  function Stem(name: string): (r: string)
    ensures r + Suffix(name) == name
    ensures name != "" ==> r != ""
  {
    var i := LastDot(name);
    if 0 < i < |name| - 1 then name[..i] else name
  }

  /** Parsing a single component gives the one-component relative path. */
  lemma ParseComponent(name: string)
    requires IsComponent(name)
    ensures Parse(name) == PurePath("", [name])
  {
    assert Segments(name) == [name];
    assert Components([name]) == [name] + Components([]);
  }

  lemma {:induction false} SegmentsOfJoin(parts: seq<string>)
    requires parts != []
    requires forall i :: 0 <= i < |parts| ==> IsComponent(parts[i])
    ensures Segments(JoinParts(parts)) == parts
    decreases |parts|
  {
    if |parts| == 1 {
      assert '/' !in parts[0];
    } else {
      assert '/' !in parts[0];
      SegmentsOfSlash(parts[0], JoinParts(parts[1..]));
      SegmentsOfJoin(parts[1..]);
      assert parts == [parts[0]] + parts[1..];
    }
  }

  /** Splitting at the first separator: a segment without `/`, then the rest. */
  lemma SegmentsOfSlash(a: string, rest: string)
    requires '/' !in a
    ensures Segments(a + "/" + rest) == [a] + Segments(rest)
  {
    var s := a + "/" + rest;
    assert s[|a|] == '/';
    var i := FirstSlash(s);
    assert forall k :: 0 <= k < |a| ==> s[k] == a[k];
    assert i == |a|;
    assert s[..i] == a && s[i + 1..] == rest;
  }

  lemma {:induction false} ComponentsKeepsComponents(segs: seq<string>)
    requires forall i :: 0 <= i < |segs| ==> IsComponent(segs[i])
    requires forall i :: 0 <= i < |segs| ==> '/' !in segs[i]
    ensures Components(segs) == segs
  {
    if segs != [] {
      ComponentsKeepsComponents(segs[1..]);
    }
  }

  /** Printing a well-formed path and parsing it back gives the same path. */
  lemma ParseFormat(p: PurePath)
    requires WellFormed(p)
    ensures Parse(Format(p)) == p
  {
    if p.parts == [] {
      ParseBareRoot(p.root);
    } else {
      var j := JoinParts(p.parts);
      SegmentsOfJoin(p.parts);
      ComponentsKeepsComponents(p.parts);
      JoinPartsStart(p.parts);
      assert Format(p) == p.root + j;
      ParseRooted(p.root, j, p.parts);
    }
  }

  /** A root alone, or `.` for the empty relative path, parses back to the bare root. */
  lemma ParseBareRoot(root: string)
    requires IsRoot(root)
    ensures Parse(Format(PurePath(root, []))) == PurePath(root, [])
  {
    if root == "/" {
      assert FirstSlash(root) == 0;
      assert Segments(root) == ["", ""];
      assert Components(["", ""]) == [] + Components([""]);
    } else if root == "//" {
      assert FirstSlash(root) == 0 && root[1..] == "/";
      assert Segments("/") == ["", ""] by { assert FirstSlash("/") == 0; }
      assert Segments(root) == ["", "", ""];
      assert Components(["", "", ""]) == [] + Components(["", ""]);
      assert Components(["", ""]) == [] + Components([""]);
    } else {
      assert Segments(".") == ["."];
      assert Components(["."]) == [] + Components([]);
    }
  }

  /** A root followed by joined components parses back to that root and those components. */
  lemma ParseRooted(root: string, j: string, parts: seq<string>)
    requires IsRoot(root) && j != "" && j[0] != '/'
    requires Segments(j) == parts && Components(parts) == parts
    ensures Parse(root + j) == PurePath(root, parts)
  {
    var s := root + j;
    if root == "/" {
      assert FirstSlash(s) == 0 && s[1..] == j;
      assert Segments(s) == [""] + parts;
      assert Components([""] + parts) == [] + Components(parts);
    } else if root == "//" {
      assert s[2] == j[0];
      SlashSegments(j);
      assert Components(["", ""] + parts) == [] + Components([""] + parts);
      assert Components([""] + parts) == [] + Components(parts);
    } else {
      assert s == j;
    }
  }

  /**
   * Exactly two leading slashes are kept as the root, so a protocol-relative
   * address such as `//cdn.example.com` stays one; three collapse to `/`.
   */
  lemma ParseDoubleSlash(host: string)
    requires IsComponent(host)
    ensures Parse("//" + host) == PurePath("//", [host])
    ensures Parse("///" + host) == PurePath("/", [host])
  {
    ComponentsOfRooted(host);
    ParseRooted("//", host, [host]);
    ParseTripleSlash(host);
  }

  lemma ParseTripleSlash(host: string)
    requires IsComponent(host)
    ensures Parse("///" + host) == PurePath("/", [host])
  {
    ComponentsOfRooted(host);
    var t := "///" + host;
    assert FirstSlash(t) == 0 && t[1..] == "//" + host;
    SlashSegments(host);
    assert Segments(t) == [""] + (["", ""] + [host]);
  }

  /** The components of a single name after one, two or three empty segments. */
  lemma ComponentsOfRooted(host: string)
    requires IsComponent(host)
    ensures Segments(host) == [host] && Components([host]) == [host]
    ensures Components(["", ""] + [host]) == [host]
    ensures Components([""] + (["", ""] + [host])) == [host]
  {
    assert Components([host]) == [host] + Components([]);
    assert Components([""] + [host]) == [] + Components([host]);
    assert Components(["", ""] + [host]) == [] + Components([""] + [host]);
    assert Components([""] + (["", ""] + [host])) == [] + Components(["", ""] + [host]);
  }

  /** A leading `//` splits off two empty segments. */
  lemma SlashSegments(j: string)
    ensures Segments("//" + j) == ["", ""] + Segments(j)
  {
    var s := "//" + j;
    assert FirstSlash(s) == 0 && s[1..] == "/" + j;
    assert FirstSlash("/" + j) == 0 && ("/" + j)[1..] == j;
  }

  lemma {:induction false} JoinPartsStart(parts: seq<string>)
    requires parts != [] && IsComponent(parts[0])
    ensures |JoinParts(parts)| > 0 && JoinParts(parts)[0] == parts[0][0]
  {
    if |parts| > 1 {
      assert JoinParts(parts) == parts[0] + ("/" + JoinParts(parts[1..]));
    }
  }
}
