/**
 * Go's `path.Join` for two elements, with the `path.Clean` it applies: the
 * joined path is split at slashes, empty and `.` elements are dropped, and a
 * `..` element removes the element before it (or, at the start of a relative
 * path, is kept; at the start of a rooted path, is dropped).
 */
module Paths {

  /** The index of the first slash in `s`. */
  function FirstSlash(s: string): (i: nat)
    requires '/' in s
    ensures i < |s| && s[i] == '/' && '/' !in s[..i]
  {
    if s[0] == '/' then 0 else assert '/' in s[1..]; 1 + FirstSlash(s[1..])
  }

  /** The elements of `s` between slashes, as `strings.Split(s, "/")`. */
  function Split(s: string): (r: seq<string>)
    decreases |s|
  {
    if '/' !in s then [s] else var i := FirstSlash(s); [s[..i]] + Split(s[i + 1..])
  }

  /** `strings.Join(segs, "/")`. */
  function JoinSegments(segs: seq<string>): string
    decreases |segs|
  {
    if |segs| == 0 then "" else if |segs| == 1 then segs[0] else segs[0] + "/" + JoinSegments(segs[1..])
  }

  /** Clean's pass over the elements, left to right, keeping the cleaned
      elements in `out`. */
  function Resolve(segs: seq<string>, rooted: bool, out: seq<string>): seq<string>
    decreases |segs|
  {
    if |segs| == 0 then out
    else if segs[0] == "" || segs[0] == "." then Resolve(segs[1..], rooted, out)
    else if segs[0] == ".." then
      if |out| > 0 && out[|out| - 1] != ".." then Resolve(segs[1..], rooted, out[..|out| - 1])
      else if rooted then Resolve(segs[1..], rooted, out)
      else Resolve(segs[1..], rooted, out + [".."])
    else Resolve(segs[1..], rooted, out + [segs[0]])
  }

  /** `path.Clean`. */
  function Clean(p: string): string {
    if p == "" then "."
    else
      var rooted := p[0] == '/';
      var body := JoinSegments(Resolve(Split(p), rooted, []));
      if rooted then "/" + body else if body == "" then "." else body
  }

  /** `path.Join(a, b)`. */
  function Join(a: string, b: string): string {
    if a == "" && b == "" then "" else if a == "" then Clean(b) else Clean(a + "/" + b)
  }

  /** A single path element that Clean leaves alone. */
  predicate Plain(s: string) {
    s != "" && s != "." && s != ".." && '/' !in s
  }

  /** Splitting at the slash after a plain first element. */
  lemma SplitAt(a: string, b: string)
    requires '/' !in a
    ensures Split(a + "/" + b) == [a] + Split(b)
  {
    var s := a + "/" + b;
    assert s[|a|] == '/';
    assert s[..|a|] == a;
    assert FirstSlash(s) == |a|;
    assert s[|a| + 1..] == b;
  }

  /** Clean keeps a plain element. */
  lemma ResolveKeep(seg: string, rest: seq<string>, rooted: bool, out: seq<string>)
    requires Plain(seg)
    ensures Resolve([seg] + rest, rooted, out) == Resolve(rest, rooted, out + [seg])
  {
    assert ([seg] + rest)[0] == seg && ([seg] + rest)[1..] == rest;
  }

  /** Clean lets `..` remove the element before it. */
  lemma ResolveUp(rest: seq<string>, rooted: bool, out: seq<string>)
    requires |out| > 0 && out[|out| - 1] != ".."
    ensures Resolve([".."] + rest, rooted, out) == Resolve(rest, rooted, out[..|out| - 1])
  {
    assert ([".."] + rest)[0] == ".." && ([".."] + rest)[1..] == rest;
  }

  /** Clean drops a `.` element. */
  lemma ResolveDot(rest: seq<string>, rooted: bool, out: seq<string>)
    ensures Resolve(["."] + rest, rooted, out) == Resolve(rest, rooted, out)
  {
    assert (["."] + rest)[0] == "." && (["."] + rest)[1..] == rest;
  }

  /** Joining two plain elements puts one slash between them. */
  lemma JoinPlain(a: string, b: string)
    requires Plain(a) && Plain(b)
    ensures Join(a, b) == a + "/" + b
  {
    SplitAt(a, b);
    assert Split(a + "/" + b) == [a] + [b];
    ResolveKeep(a, [b], false, []);
    ResolveKeep(b, [], false, [a]);
    assert [b] + [] == [b];
    assert JoinSegments([a, b]) == a + "/" + b;
    assert (a + "/" + b)[0] == a[0];
  }

  /** A `.` element adds nothing. */
  lemma JoinDot(a: string)
    requires Plain(a)
    ensures Join(a, ".") == a
  {
    SplitAt(a, ".");
    assert Split(a + "/" + ".") == [a] + ["."];
    ResolveKeep(a, ["."], false, []);
    ResolveDot([], false, [a]);
    assert ["."] + [] == ["."];
    assert (a + "/" + ".")[0] == a[0];
  }

  /** A leading `..` climbs out of the first element. */
  lemma JoinUp(a: string, b: string)
    requires Plain(a) && Plain(b)
    ensures Join(a, "../" + b) == b
  {
    var p := a + "/" + ("../" + b);
    assert p == a + "/" + (".." + "/" + b);
    SplitAt(a, ".." + "/" + b);
    SplitAt("..", b);
    assert Split(p) == [a] + ([".."] + [b]);
    ResolveKeep(a, [".."] + [b], false, []);
    ResolveUp([b], false, [a]);
    assert [a][..0] == [];
    ResolveKeep(b, [], false, []);
    assert [b] + [] == [b];
    assert p[0] == a[0];
  }

  lemma SplitCancel(a: string, x: string, b: string)
    requires Plain(a) && Plain(x) && Plain(b)
    ensures Split(a + "/" + (x + "/../" + b)) == [a] + ([x] + ([".."] + [b]))
  {
    assert a + "/" + (x + "/../" + b) == a + "/" + (x + "/" + (".." + "/" + b));
    SplitAt(a, x + "/" + (".." + "/" + b));
    SplitAt(x, ".." + "/" + b);
    SplitAt("..", b);
  }

  lemma ResolveCancel(a: string, x: string, b: string)
    requires Plain(a) && Plain(x) && Plain(b)
    ensures Resolve([a] + ([x] + ([".."] + [b])), false, []) == [a, b]
  {
    ResolveKeep(a, [x] + ([".."] + [b]), false, []);
    assert [] + [a] == [a];
    ResolveKeep(x, [".."] + [b], false, [a]);
    assert [a] + [x] == [a, x];
    ResolveUp([b], false, [a, x]);
    assert [a, x][..1] == [a];
    ResolveKeep(b, [], false, [a]);
    assert [b] + [] == [b];
    assert [a] + [b] == [a, b];
  }

  /** An element followed by `..` cancels out. */
  lemma JoinCancel(a: string, x: string, b: string)
    requires Plain(a) && Plain(x) && Plain(b)
    ensures Join(a, x + "/../" + b) == Join(a, b)
  {
    var p := a + "/" + (x + "/../" + b);
    SplitCancel(a, x, b);
    ResolveCancel(a, x, b);
    assert JoinSegments([a, b]) == a + "/" + b;
    assert p[0] == a[0];
    assert Clean(p) == a + "/" + b;
    JoinPlain(a, b);
  }
}
