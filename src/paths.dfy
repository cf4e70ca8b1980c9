/** POSIX paths as `pathlib` reads and writes them: a path is an optional root
    and a list of components; parsing splits at '/' and drops the empty and
    "." components, and `joinpath` restarts at an absolute argument. */
module Paths {
  import Seqs

  /** No '/' in `c`. */
  predicate NoSlash(c: string) {
    forall j :: 0 <= j < |c| ==> c[j] != '/'
  }

  /** `p.split('/')`: the texts between the '/' characters, at least one. */
  function Split(p: string): (segments: seq<string>)
    ensures segments != []
  {
    if p == [] then [""]
    else
      var rest := Split(p[1..]);
      if p[0] == '/' then [""] + rest else [[p[0]] + rest[0]] + rest[1..]
  }

  /** No segment holds a '/'. */
  lemma {:induction false} SplitNoSlash(p: string)
    ensures forall k :: 0 <= k < |Split(p)| ==> NoSlash(Split(p)[k])
  {
    if p != [] {
      SplitNoSlash(p[1..]);
      var rest := Split(p[1..]);
      if p[0] != '/' {
        assert NoSlash([p[0]] + rest[0]) by {
          assert forall j :: 1 <= j < |[p[0]] + rest[0]| ==> ([p[0]] + rest[0])[j] == rest[0][j - 1];
        }
        assert forall k :: 1 <= k < |Split(p)| ==> Split(p)[k] == rest[k];
      } else {
        assert forall k :: 1 <= k < |Split(p)| ==> Split(p)[k] == rest[k - 1];
      }
    }
  }

  /** A text without '/' is a single segment. */
  lemma {:induction false} SplitSegment(c: string)
    requires NoSlash(c)
    ensures Split(c) == [c]
  {
    if c != [] {
      SplitSegment(c[1..]);
      assert c == [c[0]] + c[1..];
    }
  }

  /** The segments of a text after its first character. */
  lemma SplitCons(x: char, rest: string)
    ensures Split([x] + rest) ==
              if x == '/' then [""] + Split(rest) else [[x] + Split(rest)[0]] + Split(rest)[1..]
  {
    assert ([x] + rest)[1..] == rest;
  }

  /** A '/' separates the segments of the text before it from those after. */
  lemma {:induction false} SplitAtSlash(a: string, b: string)
    ensures Split(a + "/" + b) == Split(a) + Split(b)
  {
    if a == [] {
      assert a + "/" + b == ['/'] + b;
      SplitCons('/', b);
    } else {
      SplitAtSlash(a[1..], b);
      SplitAtSlashStep(a[0], a[1..], b);
      assert a == [a[0]] + a[1..];
    }
  }

  /** The inductive step of `SplitAtSlash`: one more character in front. */
  lemma SplitAtSlashStep(x: char, a: string, b: string)
    requires Split(a + "/" + b) == Split(a) + Split(b)
    ensures Split([x] + a + "/" + b) == Split([x] + a) + Split(b)
  {
    assert [x] + a + "/" + b == [x] + (a + "/" + b);
    SplitCons(x, a + "/" + b);
    SplitCons(x, a);
    if x == '/' {
      ConsSegmentEmpty(Split(a), Split(b));
    } else {
      ConsSegmentChar(x, Split(a), Split(b));
    }
  }

  /** Sequence algebra for a leading '/': a new empty segment in front. */
  lemma ConsSegmentEmpty(rest: seq<string>, after: seq<string>)
    ensures [""] + (rest + after) == ([""] + rest) + after
  {
  }

  /** Sequence algebra for a leading character: it joins the first segment. */
  lemma ConsSegmentChar(x: char, rest: seq<string>, after: seq<string>)
    requires rest != []
    ensures [[x] + (rest + after)[0]] + (rest + after)[1..] == ([[x] + rest[0]] + rest[1..]) + after
  {
    assert (rest + after)[0] == rest[0];
    assert (rest + after)[1..] == rest[1..] + after;
  }

  /** A segment parsing keeps: not empty and not ".". */
  predicate Kept(c: string) {
    c != "" && c != "."
  }

  /** A component as parsing keeps it. */
  predicate IsPart(c: string) {
    Kept(c) && NoSlash(c)
  }

  /** The components `PurePosixPath(p).parts` lists after the root. */
  function Parts(p: string): (parts: seq<string>)
    ensures forall k :: 0 <= k < |parts| ==> IsPart(parts[k])
  {
    var parts := Seqs.Filter(Split(p), Kept);
    SplitNoSlash(p);
    assert forall k :: 0 <= k < |parts| ==> parts[k] in Split(p) && Kept(parts[k]);
    parts
  }

  /** A '/' separates the components before it from those after. */
  lemma PartsAtSlash(a: string, b: string)
    ensures Parts(a + "/" + b) == Parts(a) + Parts(b)
  {
    SplitAtSlash(a, b);
    Seqs.FilterAppend(Split(a), Split(b), Kept);
  }

  /** A component on its own is parsed as that component. */
  lemma PartsOfPart(c: string)
    requires IsPart(c)
    ensures Parts(c) == [c]
  {
    SplitSegment(c);
    assert Seqs.Filter([c], Kept) == Seqs.Filter([], Kept) + [c];
  }

  /** `PurePosixPath(p).name`: the last component; "" when there is none. */
  function PosixName(p: string): (name: string)
    ensures NoSlash(name)
    ensures name != "."
  {
    var parts := Parts(p);
    if parts == [] then "" else parts[|parts| - 1]
  }

  /** The name of a path whose last component is `name` is `name`. */
  lemma PosixNameOfLastComponent(dir: string, name: string)
    requires IsPart(name)
    ensures PosixName(dir + "/" + name) == name
  {
    PartsAtSlash(dir, name);
    PartsOfPart(name);
  }

  /** The components written with '/' between them. */
  function Join(parts: seq<string>): string {
    if |parts| == 0 then ""
    else if |parts| == 1 then parts[0]
    else Join(parts[..|parts| - 1]) + "/" + parts[|parts| - 1]
  }

  /** Splitting the components written with '/' between them gives them
      back. */
  lemma {:induction false} SplitOfJoin(parts: seq<string>)
    requires parts != [] && forall k :: 0 <= k < |parts| ==> NoSlash(parts[k])
    ensures Split(Join(parts)) == parts
  {
    if |parts| == 1 {
      SplitSegment(parts[0]);
    } else {
      var init, last := parts[..|parts| - 1], parts[|parts| - 1];
      SplitOfJoin(init);
      SplitAtSlash(Join(init), last);
      SplitSegment(last);
      assert parts == init + [last];
    }
  }

  /** Parsing the components written with '/' between them gives them back. */
  lemma PartsOfJoin(parts: seq<string>)
    requires forall k :: 0 <= k < |parts| ==> IsPart(parts[k])
    ensures Parts(Join(parts)) == parts
  {
    if parts == [] {
      PartsOfEmpty();
    } else {
      SplitOfJoin(parts);
      Seqs.FilterAll(parts, Kept);
    }
  }

  /** The empty text has no components. */
  lemma PartsOfEmpty()
    ensures Parts("") == []
  {
    assert Split("") == [""];
    assert Seqs.Filter([""], Kept) == Seqs.Filter([], Kept) + [];
  }

  /** A join of components starts with the first one. */
  lemma {:induction false} JoinStart(parts: seq<string>)
    requires parts != [] && parts[0] != ""
    ensures Join(parts) != [] && Join(parts)[0] == parts[0][0]
  {
    if |parts| > 1 {
      JoinStart(parts[..|parts| - 1]);
    }
  }

  /** `str()` of a path: "/" for a root, then the components joined by '/';
      "." for a relative path without components. */
  function Render(absolute: bool, parts: seq<string>): string {
    if absolute then "/" + Join(parts)
    else if parts == [] then "."
    else Join(parts)
  }

  /** A path starts with '/' exactly when it is absolute. */
  predicate IsAbsolute(p: string) {
    p != [] && p[0] == '/'
  }

  /** Parsing `str()` of a path gives its components back, and its root. */
  lemma PartsOfRender(absolute: bool, parts: seq<string>)
    requires forall k :: 0 <= k < |parts| ==> IsPart(parts[k])
    ensures Parts(Render(absolute, parts)) == parts
    ensures IsAbsolute(Render(absolute, parts)) <==> absolute
  {
    PartsOfJoin(parts);
    if absolute {
      assert Render(absolute, parts) == "" + "/" + Join(parts);
      PartsAtSlash("", Join(parts));
      PartsOfEmpty();
    } else if parts == [] {
      SplitSegment(".");
      assert Seqs.Filter(["."], Kept) == Seqs.Filter([], Kept) + [];
    } else {
      JoinStart(parts);
    }
  }

  /** `Path(base).joinpath(name)` written out with `str()`: an absolute
      `name` restarts from its own root; otherwise the components of `name`
      follow those of `base`. The empty and "." components of both are
      dropped. */
  function JoinPath(base: string, name: string): (path: string)
    ensures IsAbsolute(path) <==> IsAbsolute(name) || IsAbsolute(base)
    ensures Parts(path) == if IsAbsolute(name) then Parts(name) else Parts(base) + Parts(name)
  {
    var absolute := IsAbsolute(name) || IsAbsolute(base);
    var parts := if IsAbsolute(name) then Parts(name) else Parts(base) + Parts(name);
    PartsOfRender(absolute, parts);
    Render(absolute, parts)
  }

  /** The file a joined path names is the last component of `name`, whatever
      the base, when `name` has one. */
  lemma JoinPathNamesTrack(base: string, name: string)
    requires Parts(name) != []
    ensures PosixName(JoinPath(base, name)) == PosixName(name)
  {
    var own := Parts(name);
    var prefix := if IsAbsolute(name) then [] else Parts(base);
    assert PosixName(name) == own[|own| - 1] by {
      NameOfParts(name, [], own);
    }
    assert PosixName(JoinPath(base, name)) == own[|own| - 1] by {
      NameOfParts(JoinPath(base, name), prefix, own);
    }
  }

  /** A path whose components end with `own` is named by the last of them. */
  lemma NameOfParts(p: string, prefix: seq<string>, own: seq<string>)
    requires own != [] && Parts(p) == prefix + own
    ensures PosixName(p) == own[|own| - 1]
  {
    var parts := prefix + own;
    assert parts[|parts| - 1] == own[|own| - 1];
  }

  /** `joinpath` sees only whether the name is absolute and its components. */
  lemma JoinPathOfSameParts(base: string, name: string, name': string)
    requires IsAbsolute(name) == IsAbsolute(name') && Parts(name) == Parts(name')
    ensures JoinPath(base, name) == JoinPath(base, name')
  {
  }

  /** A doubled '/' adds no component. */
  lemma PartsDoubleSlash(a: string, b: string)
    ensures Parts(a + "//" + b) == Parts(a + "/" + b)
    ensures IsAbsolute(a + "//" + b) == IsAbsolute(a + "/" + b)
  {
    var c := "/" + b;
    assert Parts(c) == Parts(b) by {
      assert c == "" + "/" + b;
      PartsAtSlash("", b);
      PartsOfEmpty();
    }
    assert Parts(a + "//" + b) == Parts(a) + Parts(c) by {
      assert a + "//" + b == a + "/" + c;
      PartsAtSlash(a, c);
    }
    PartsAtSlash(a, b);
    if a != [] {
      assert (a + "//" + b)[0] == a[0] == (a + "/" + b)[0];
    }
  }

  /** A doubled '/' in a name changes nothing: `joinpath('a//b')` is
      `joinpath('a/b')`. */
  lemma JoinPathDoubleSlash(base: string, a: string, b: string)
    ensures JoinPath(base, a + "//" + b) == JoinPath(base, a + "/" + b)
  {
    PartsDoubleSlash(a, b);
    JoinPathOfSameParts(base, a + "//" + b, a + "/" + b);
  }

  /** A trailing '/' adds no component. */
  lemma PartsTrailingSlash(name: string)
    requires name != ""
    ensures Parts(name + "/") == Parts(name)
    ensures IsAbsolute(name + "/") == IsAbsolute(name)
  {
    assert name + "/" == name + "/" + "";
    PartsAtSlash(name, "");
    PartsOfEmpty();
    assert (name + "/")[0] == name[0];
  }

  /** A trailing '/' changes nothing: `joinpath('x/')` is `joinpath('x')`. */
  lemma JoinPathTrailingSlash(base: string, name: string)
    requires name != ""
    ensures JoinPath(base, name + "/") == JoinPath(base, name)
  {
    PartsTrailingSlash(name);
    JoinPathOfSameParts(base, name + "/", name);
  }

  /** `joinpath('.')` is the base itself, written without empty or "."
      components. */
  lemma JoinPathDot(base: string)
    ensures JoinPath(base, ".") == Render(IsAbsolute(base), Parts(base))
  {
    SplitSegment(".");
    assert Seqs.Filter(["."], Kept) == Seqs.Filter([], Kept) + [];
    assert Parts(".") == [];
    assert Parts(base) + Parts(".") == Parts(base);
  }
}
