/** `pathlib.PurePosixPath` accessors (`name`, `suffix`, `stem`) and `os.path.join`
    for two components, on POSIX paths. */
module PyPath {
  import opened PyStr

  /** `Path(p).name`: the final component, the text after the last `/`. */
  function Name(path: string): (r: string)
    ensures '/' !in r
    ensures EndsWith(path, r)
  {
    path[RFind(path, '/') + 1..]
  }

  /** The index of the dot that starts the suffix of `name`, when there is one:
      the last dot, provided it is neither the first nor the last character. */
  function SuffixDot(name: string): (i: int)
    ensures i == -1 || (0 < i < |name| - 1 && name[i] == '.')
  {
    var i := RFind(name, '.');
    if 0 < i < |name| - 1 then i else -1
  }

  /** `Path(p).suffix`. */
  function Suffix(path: string): string
  {
    var name := Name(path);
    var i := SuffixDot(name);
    if i == -1 then "" else name[i..]
  }

  /** `Path(p).stem`. */
  function Stem(path: string): string
  {
    var name := Name(path);
    var i := SuffixDot(name);
    if i == -1 then name else name[..i]
  }

  /** `os.path.join(a, b)` (posixpath): an absolute `b` replaces `a`; otherwise a `/`
      is put between them unless `a` is empty or already ends with one. */
  function Join(a: string, b: string): string
  {
    if |b| > 0 && b[0] == '/' then b
    else if a == [] || a[|a| - 1] == '/' then a + b
    else a + "/" + b
  }

  /** The stem and the suffix split the final component: `stem + suffix == name`.
      The suffix is empty, or a dot followed by at least one character and no
      further dot, after a non-empty stem. */
  lemma StemSuffixSplit(path: string)
    ensures Stem(path) + Suffix(path) == Name(path)
    ensures var x := Suffix(path);
      x == "" || (|x| >= 2 && x[0] == '.' && '.' !in x[1..] && Stem(path) != "")
  {
    var name := Name(path);
    var i := SuffixDot(name);
    if i != -1 {
      var x := name[i..];
      forall j | 1 <= j < |x| ensures x[j] != '.' {
        assert x[j] == name[i + j];
      }
      assert forall k :: 0 <= k < |x[1..]| ==> x[1..][k] == x[k + 1];
    }
  }

  /** The three facts `RFind` promises pin its result down. */
  lemma RFindIs(s: string, c: char, i: int)
    requires -1 <= i < |s|
    requires i >= 0 ==> s[i] == c
    requires forall j :: i < j < |s| ==> s[j] != c
    ensures RFind(s, c) == i
  {
  }

  /** `rfind` over a concatenation: a hit in the right part wins; otherwise the
      search falls back to the left part. */
  lemma RFindAppend(s: string, t: string, c: char)
    ensures RFind(s + t, c) == if c in t then |s| + RFind(t, c) else RFind(s, c)
  {
    var st := s + t;
    if c in t {
      var j := RFind(t, c);
      forall m | |s| + j < m < |st| ensures st[m] != c {
        assert st[m] == t[m - |s|];
      }
      RFindIs(st, c, |s| + j);
    } else {
      var j := RFind(s, c);
      forall m | j < m < |st| ensures st[m] != c {
        if m >= |s| {
          assert st[m] == t[m - |s|];
        }
      }
      RFindIs(st, c, j);
    }
  }

  /** A plain file name joined under any directory is the final component of the
      joined path. */
  lemma NameOfJoin(dir: string, file: string)
    requires '/' !in file
    ensures Name(Join(dir, file)) == file
  {
    var j := Join(dir, file);
    var front := if dir == [] || dir[|dir| - 1] == '/' then dir else dir + "/";
    assert j == front + file;
    RFindAppend(front, file, '/');
    if front != [] {
      assert front[|front| - 1] == '/';
      RFindIs(front, '/', |front| - 1);
    }
    assert j[|front|..] == file;
  }

  /** A plain file name joined under any directory keeps its name, so its stem and
      suffix are those of the bare file name. */
  lemma JoinKeepsName(dir: string, file: string)
    requires '/' !in file
    ensures Name(Join(dir, file)) == file
    ensures Stem(Join(dir, file)) == Stem(file)
    ensures Suffix(Join(dir, file)) == Suffix(file)
  {
    NameOfJoin(dir, file);
    assert RFind(file, '/') == -1;
    assert file[0..] == file;
    SameName(Join(dir, file), file);
  }

  /** Stem and suffix depend on the final component alone. */
  lemma SameName(p: string, q: string)
    requires Name(p) == Name(q)
    ensures Stem(p) == Stem(q) && Suffix(p) == Suffix(q)
  {
  }

  /** A name made of a non-empty base and an extension (a dot, then at least one
      character and no further dot) has that extension as suffix and the base as stem. */
  lemma DottedName(base: string, ext: string)
    requires base != [] && '/' !in base
    requires |ext| >= 2 && ext[0] == '.' && '.' !in ext[1..] && '/' !in ext
    ensures Name(base + ext) == base + ext
    ensures Suffix(base + ext) == ext
    ensures Stem(base + ext) == base
  {
    var n := base + ext;
    RFindAppend(base, ext, '/');
    assert RFind(base, '/') == -1;
    assert RFind(ext, '/') == -1;
    assert n[0..] == n;
    RFindAppend(base, ext, '.');
    forall j | 0 < j < |ext| ensures ext[j] != '.' {
      assert ext[j] == ext[1..][j - 1];
    }
    RFindIs(ext, '.', 0);
    assert n[|base|..] == ext;
    assert n[..|base|] == base;
  }

  /** A name with no `/` and no dot after its first character has no suffix, and is
      its own stem: `.mp4` (a hidden file) and `README` are such names. */
  lemma UndottedName(name: string)
    requires '/' !in name
    requires forall j :: 0 < j < |name| ==> name[j] != '.'
    ensures Name(name) == name && Suffix(name) == "" && Stem(name) == name
  {
    assert RFind(name, '/') == -1;
    assert name[0..] == name;
  }
}
