/**
 * How `process` in geotag.py builds its list of files: `glob` of "*.png" in a
 * directory (or the single file named), then `files.sort()`.
 */
module FileSelection {
  import opened Paths

  const IMAGE_EXTENSION := ".png"
  const PATTERN := "*.png"

  /** A directory entry `glob` reports for "*.png": ends in ".png" and is not hidden. */
  predicate Matches(name: string)
  {
    |name| >= 4 && name[|name| - 4..] == IMAGE_EXTENSION && name[0] != '.'
  }

  /** Matching is case-sensitive: an upper-case extension is not an image to `glob`. */
  lemma UpperCaseSkipped()
    ensures !Matches("A.PNG") && Matches("a.png")
    ensures Kept(["A.PNG", "a.png"]) == ["a.png"]
  {
    assert "A.PNG"[1..] == ".PNG";
    assert ["A.PNG", "a.png"][1..] == ["a.png"];
    assert ["a.png"][1..] == [];
  }

  /** The matching entries of a listing, in listing order. */
  function Kept(names: seq<string>): (r: seq<string>)
    ensures forall n :: multiset(r)[n] == if Matches(n) then multiset(names)[n] else 0
  {
    if names == [] then []
    else
      var rest := Kept(names[1..]);
      assert names == [names[0]] + names[1..];
      if Matches(names[0]) then [names[0]] + rest else rest
  }

  /** Each name of a listing prefixed with its directory. */
  function JoinAll(dir: string, names: seq<string>): (r: seq<string>)
    ensures |r| == |names|
    ensures forall i :: 0 <= i < |names| ==> r[i] == Join(dir, names[i])
  {
    if names == [] then [] else [Join(dir, names[0])] + JoinAll(dir, names[1..])
  }

  /**
   * The directory `glob` lists for `os.path.join(dir, '*.png')` and joins each match
   * to: the head of splitting that pattern path.
   */
  function GlobDirectory(dir: string): string
  {
    SplitHead(Join(dir, PATTERN))
  }

  /**
   * The directory `glob` joins matches to is `dir` without its trailing slashes,
   * unless `dir` is made of slashes only.
   */
  lemma GlobDirectoryStripped(dir: string)
    ensures dir == [] ==> GlobDirectory(dir) == []
    ensures dir != [] && AllSlashes(dir) ==> GlobDirectory(dir) == dir
    ensures !AllSlashes(dir) ==> GlobDirectory(dir) == StripTrailingSlashes(dir)
  {
    var head := PatternHead(dir);
    if !(dir == [] || dir[|dir| - 1] == '/') {
      assert !AllSlashes(head) by {
        assert head[|dir| - 1] != '/';
      }
      assert head[..|head| - 1] == dir;
    }
  }

  /** Splitting `os.path.join(dir, '*.png')` leaves `dir`, with a '/' added when it does not end in one. */
  lemma PatternHead(dir: string) returns (head: string)
    ensures head == if dir == [] || dir[|dir| - 1] == '/' then dir else dir + "/"
    ensures var path := Join(dir, PATTERN); path[..|path| - |Basename(path)|] == head
  {
    assert PATTERN[0] != '/';
    assert '/' !in PATTERN;
    BasenameOfName(PATTERN);
    var path := Join(dir, PATTERN);
    if dir == [] || dir[|dir| - 1] == '/' {
      head := dir;
      BasenameAfterSeparator(dir, PATTERN);
    } else {
      head := dir + "/";
      assert path == head + PATTERN;
      BasenameAfterSeparator(head, PATTERN);
    }
    assert path[..|path| - |PATTERN|] == head;
  }

  /** What `glob.glob(os.path.join(dir, '*.png'))` returns, before sorting. */
  function Globbed(dir: string, listing: seq<string>): seq<string>
  {
    JoinAll(GlobDirectory(dir), Kept(listing))
  }

  /** A directory given with a trailing "//" still yields paths with a single '/'. */
  lemma DoubledSlashDirectory()
    ensures Globbed("imgs//", ["a.png", ".b.png", "c.jpg"]) == ["imgs/a.png"]
  {
    DoubledSlashHead();
    SampleListingKept();
    assert Join("imgs", "a.png") == "imgs/a.png";
    assert JoinAll("imgs", ["a.png"]) == [Join("imgs", "a.png")];
  }

  lemma DoubledSlashHead()
    ensures GlobDirectory("imgs//") == "imgs"
  {
    GlobDirectoryStripped("imgs//");
    assert !AllSlashes("imgs//") by {
      assert "imgs//"[0] != '/';
    }
    assert StripTrailingSlashes("imgs//") == "imgs" by {
      assert "imgs//"[..5] == "imgs/";
      assert "imgs/"[..4] == "imgs";
    }
  }

  lemma SampleListingKept()
    ensures Kept(["a.png", ".b.png", "c.jpg"]) == ["a.png"]
  {
    assert ["a.png", ".b.png", "c.jpg"][1..] == [".b.png", "c.jpg"];
    assert [".b.png", "c.jpg"][1..] == ["c.jpg"];
    assert ["c.jpg"][1..] == [];
    assert "a.png"[1..] == ".png";
    assert "c.jpg"[1..] == ".jpg";
  }

  /** A listing made of N matching and M other entries yields exactly N files. */
  lemma GlobbedCount(dir: string, listing: seq<string>, good: seq<string>, bad: seq<string>)
    requires multiset(listing) == multiset(good) + multiset(bad)
    requires forall i :: 0 <= i < |good| ==> Matches(good[i])
    requires forall i :: 0 <= i < |bad| ==> !Matches(bad[i])
    ensures |Globbed(dir, listing)| == |good|
  {
    var kept := Kept(listing);
    forall n
      ensures multiset(kept)[n] == multiset(good)[n]
    {
      if Matches(n) {
        assert n !in bad;
      } else {
        assert n !in good;
      }
    }
    assert multiset(kept) == multiset(good);
    assert |kept| == |multiset(kept)| == |multiset(good)| == |good|;
  }

  /** Python's comparison of two strings: lexicographic by character code. */
  predicate Below(a: string, b: string)
    decreases |a|
  {
    a == [] || (b != [] && (a[0] < b[0] || (a[0] == b[0] && Below(a[1..], b[1..]))))
  }

  lemma {:induction false} BelowTotal(a: string, b: string)
    ensures Below(a, b) || Below(b, a)
    decreases |a|
  {
    if a != [] && b != [] && a[0] == b[0] {
      BelowTotal(a[1..], b[1..]);
    }
  }

  lemma {:induction false} BelowTransitive(a: string, b: string, c: string)
    requires Below(a, b) && Below(b, c)
    ensures Below(a, c)
    decreases |a|
  {
    if a != [] && a[0] == b[0] && b[0] == c[0] {
      BelowTransitive(a[1..], b[1..], c[1..]);
    }
  }

  lemma {:induction false} BelowAntisymmetric(a: string, b: string)
    requires Below(a, b) && Below(b, a)
    ensures a == b
    decreases |a|
  {
    if a != [] {
      BelowAntisymmetric(a[1..], b[1..]);
      assert a == [a[0]] + a[1..] && b == [b[0]] + b[1..];
    }
  }

  predicate Sorted(s: seq<string>)
  {
    forall i, j :: 0 <= i < j < |s| ==> Below(s[i], s[j])
  }

  /** `list.sort()` on strings: the result is an ascending permutation of the input. */
  method Sort(s: seq<string>) returns (r: seq<string>)
    ensures Sorted(r)
    ensures multiset(r) == multiset(s)
  {
    r := [];
    var i := 0;
    while i < |s|
      invariant i <= |s|
      invariant Sorted(r)
      invariant multiset(r) == multiset(s[..i])
    {
      var x := s[i];
      var j := 0;
      while j < |r| && Below(r[j], x)
        invariant j <= |r|
        invariant forall k :: 0 <= k < j ==> Below(r[k], x)
      {
        j := j + 1;
      }
      InsertSorted(r, j, x);
      assert r == r[..j] + r[j..];
      r := r[..j] + [x] + r[j..];
      assert s[..i + 1] == s[..i] + [x];
      i := i + 1;
    }
    assert s[..i] == s;
  }

  /** Putting `x` after the entries below it and before the first one that is not keeps the list sorted. */
  lemma InsertSorted(r: seq<string>, j: nat, x: string)
    requires Sorted(r) && j <= |r|
    requires forall k :: 0 <= k < j ==> Below(r[k], x)
    requires j < |r| ==> !Below(r[j], x)
    ensures Sorted(r[..j] + [x] + r[j..])
  {
    var t := r[..j] + [x] + r[j..];
    if j < |r| {
      BelowTotal(r[j], x);
      forall k | j < k < |r|
        ensures Below(x, r[k])
      {
        BelowTransitive(x, r[j], r[k]);
      }
    }
    forall a, b | 0 <= a < b < |t|
      ensures Below(t[a], t[b])
    {
      if a < j && b == j {
      } else if a == j {
        assert t[b] == r[b - 1];
        if b - 1 > j {
          assert Below(x, r[b - 1]);
        }
      } else if a < j && b < j {
        assert t[a] == r[a] && t[b] == r[b];
      } else if a < j {
        assert t[a] == r[a] && t[b] == r[b - 1];
      } else {
        assert t[a] == r[a - 1] && t[b] == r[b - 1];
      }
    }
  }

  /**
   * Lines 104-109 of `process`: the images of a directory in ascending order, or the
   * single file given.
   */
  method SelectFiles(target: string, isDir: bool, listing: seq<string>) returns (files: seq<string>)
    ensures !isDir ==> files == [target]
    ensures isDir ==> Sorted(files) && multiset(files) == multiset(Globbed(target, listing))
  {
    files := [];
    if isDir {
      files := files + Globbed(target, listing);
    } else {
      files := files + [target];
    }
    var unsorted := files;
    files := Sort(files);
    if !isDir {
      assert |files| == |multiset(files)| == 1;
      assert files[0] in multiset(unsorted);
      assert files == [files[0]];
    }
  }
}
