/**
 * The output-path decision of `process` in geotag.py, with the pieces of Python
 * string and `posixpath` behaviour it relies on.
 */
module Paths {

  const OUTPUT_EXTENSION := ".jpg"

  /** `s.split('.')[0]`: the text before the first '.', or all of `s` when it has none. */
  function BeforeFirstDot(s: string): (r: string)
    ensures r <= s
    ensures '.' !in r
    ensures |r| < |s| ==> s[|r|] == '.'
  {
    if s == [] || s[0] == '.' then [] else [s[0]] + BeforeFirstDot(s[1..])
  }

  /** `os.path.basename(p)`: the text after the last '/'. */
  function Basename(p: string): (r: string)
    ensures |r| <= |p|
    ensures '/' !in r
    ensures |r| < |p| ==> p[|p| - |r| - 1] == '/'
  {
    if p == [] || p[|p| - 1] == '/' then [] else Basename(p[..|p| - 1]) + [p[|p| - 1]]
  }

  /** The basename is the end of the path. */
  lemma {:induction false} BasenameIsSuffix(p: string)
    ensures Basename(p) == p[|p| - |Basename(p)|..]
    decreases |p|
  {
    if p != [] && p[|p| - 1] != '/' {
      var init := p[..|p| - 1];
      BasenameIsSuffix(init);
      assert p[|p| - |Basename(p)|..] == init[|init| - |Basename(init)|..] + [p[|p| - 1]];
    }
  }

  predicate AllSlashes(s: string)
  {
    forall i :: 0 <= i < |s| ==> s[i] == '/'
  }

  /** `s.rstrip('/')`. */
  function StripTrailingSlashes(s: string): (r: string)
    ensures r <= s
    ensures r == [] || r[|r| - 1] != '/'
    ensures forall i :: |r| <= i < |s| ==> s[i] == '/'
  {
    if s != [] && s[|s| - 1] == '/' then StripTrailingSlashes(s[..|s| - 1]) else s
  }

  /**
   * The head of `os.path.split(p)`: everything up to the last '/', with its trailing
   * slashes removed unless it is made of slashes only.
   */
  function SplitHead(p: string): string
  {
    var head := p[..|p| - |Basename(p)|];
    if head != [] && !AllSlashes(head) then StripTrailingSlashes(head) else head
  }

  /** `os.path.join(a, b)` for two components. */
  function Join(a: string, b: string): (r: string)
    ensures |b| > 0 && b[0] == '/' ==> r == b
    ensures !(|b| > 0 && b[0] == '/') ==> a <= r && |b| <= |r| && r[|r| - |b|..] == b
    ensures !(|b| > 0 && b[0] == '/') && (a == [] || a[|a| - 1] == '/') ==> r == a + b
    ensures !(|b| > 0 && b[0] == '/') && a != [] && a[|a| - 1] != '/' ==> r == a + "/" + b
  {
    if |b| > 0 && b[0] == '/' then b
    else if a == [] || a[|a| - 1] == '/' then a + b
    else a + "/" + b
  }

  /** A path ending in `tail`, where `tail` holds no '/', has the basename of the text before it followed by `tail`. */
  lemma {:induction false} BasenameAppend(p: string, tail: string)
    requires '/' !in tail
    ensures Basename(p + tail) == Basename(p) + tail
    decreases |tail|
  {
    if tail != [] {
      var init := tail[..|tail| - 1];
      assert (p + tail)[..|p + tail| - 1] == p + init;
      BasenameAppend(p, init);
      assert init + [tail[|tail| - 1]] == tail;
    } else {
      assert p + tail == p;
    }
  }

  /** Text ending in a '/' (or nothing) before `b` does not change the basename of `b`. */
  lemma {:induction false} BasenameAfterSeparator(x: string, b: string)
    requires x == [] || x[|x| - 1] == '/'
    ensures Basename(x + b) == Basename(b)
    decreases |b|
  {
    if b == [] {
      assert x + b == x;
    } else if b[|b| - 1] != '/' {
      var init := b[..|b| - 1];
      assert (x + b)[..|x + b| - 1] == x + init;
      BasenameAfterSeparator(x, init);
    }
  }

  /** Joining never changes the basename of the second component. */
  lemma BasenameJoin(a: string, b: string)
    ensures Basename(Join(a, b)) == Basename(b)
  {
    if |b| > 0 && b[0] == '/' {
    } else if a == [] || a[|a| - 1] == '/' {
      BasenameAfterSeparator(a, b);
    } else {
      assert a + "/" + b == (a + "/") + b;
      BasenameAfterSeparator(a + "/", b);
    }
  }

  /**
   * The file name `process` saves to: the input itself in place, otherwise the text
   * before the first '.' followed by ".jpg", moved into `destdir` when one is set
   * (the empty string stands for no destination directory).
   */
  function OutputPath(f: string, inplace: bool, destdir: string): (r: string)
  {
    if inplace then f
    else
      var newfile := BeforeFirstDot(f) + OUTPUT_EXTENSION;
      if destdir != "" then Join(destdir, Basename(newfile)) else newfile
  }

  /** With the in-place flag the output path is the input path. */
  lemma InPlaceKeepsPath(f: string, destdir: string)
    ensures OutputPath(f, true, destdir) == f
  {
  }

  /** Without a destination directory the output is the input cut at its first '.', plus ".jpg". */
  lemma RenamedBesideInput(f: string)
    ensures var r := OutputPath(f, false, "");
            && r == BeforeFirstDot(f) + OUTPUT_EXTENSION
            && |r| >= 4 && r[|r| - 4..] == OUTPUT_EXTENSION
            && '.' !in r[..|r| - 4]
            && r[..|r| - 4] <= f
  {
    var r := OutputPath(f, false, "");
    assert r[..|r| - 4] == BeforeFirstDot(f);
  }

  /**
   * With a destination directory the output lies directly under it, and its basename is
   * the basename of the input cut at its first '.', plus ".jpg".
   */
  lemma RenamedIntoDestdir(f: string, destdir: string)
    requires destdir != ""
    ensures var name := Basename(BeforeFirstDot(f)) + OUTPUT_EXTENSION;
            var r := OutputPath(f, false, destdir);
            && Basename(r) == name
            && (r == destdir + name || r == destdir + "/" + name)
  {
    var stem := BeforeFirstDot(f);
    assert '/' !in OUTPUT_EXTENSION;
    BasenameAppend(stem, OUTPUT_EXTENSION);
    JoinName(destdir, Basename(stem) + OUTPUT_EXTENSION);
  }

  /** Joining a directory with a plain file name puts that name directly under the directory. */
  lemma JoinName(dir: string, name: string)
    requires '/' !in name && name != []
    ensures var r := Join(dir, name);
            && Basename(r) == name
            && (r == dir + name || r == dir + "/" + name)
  {
    assert name[0] != '/' by {
      assert name[0] in name;
    }
    BasenameJoin(dir, name);
    BasenameOfName(name);
  }

  /** A name without '/' is its own basename. */
  lemma {:induction false} BasenameOfName(name: string)
    requires '/' !in name
    ensures Basename(name) == name
    decreases |name|
  {
    if name != [] {
      var init := name[..|name| - 1];
      assert name[|name| - 1] in name;
      assert forall c :: c in init ==> c in name;
      BasenameOfName(init);
      assert init + [name[|name| - 1]] == name;
    }
  }

  /**
   * The first '.' is looked for anywhere in the path: two different images in the
   * directory "." are both renamed to ".jpg".
   */
  lemma DotDirectoryCollides()
    ensures OutputPath("./a.png", false, "") == OutputPath("./b.png", false, "") == ".jpg"
  {
    assert BeforeFirstDot("./a.png") == [];
    assert BeforeFirstDot("./b.png") == [];
  }
}
