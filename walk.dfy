/** The directory walk of the proxy generator and the order-preserving selection it
    makes from it: `os.walk` yields each directory with the names of its files, and
    every accepted file is joined to its directory and appended, directory after
    directory, file after file. The selection is stated for any filter `keep`;
    the video-suffix filter is applied in module Discovery. */
module Walk {
  import opened PyPath

  /** One step of `os.walk`: a directory and the plain names of the files directly
      inside it (the `(root, dirs, files)` triple without `dirs`). */
  datatype WalkEntry = WalkEntry(root: string, files: seq<string>)

  /** The files of one directory that `keep` accepts, joined to it, in listing order. */
  function FilesIn(root: string, files: seq<string>, keep: string -> bool): seq<string>
  {
    if files == [] then []
    else
      var last := files[|files| - 1];
      FilesIn(root, files[..|files| - 1], keep) + (if keep(last) then [Join(root, last)] else [])
  }

  /** The files of a whole walk that `keep` accepts, directory after directory. */
  function FilesOf(walk: seq<WalkEntry>, keep: string -> bool): seq<string>
  {
    if walk == [] then []
    else
      var last := walk[|walk| - 1];
      FilesOf(walk[..|walk| - 1], keep) + FilesIn(last.root, last.files, keep)
  }

  /** Scanning one more file of a directory appends it when it is accepted. */
  lemma FilesInStep(root: string, files: seq<string>, keep: string -> bool, k: nat)
    requires k < |files|
    ensures FilesIn(root, files[..k + 1], keep)
         == FilesIn(root, files[..k], keep) + (if keep(files[k]) then [Join(root, files[k])] else [])
  {
    assert files[..k + 1][..k] == files[..k];
  }

  /** Walking one more directory appends its accepted files. */
  lemma FilesOfStep(walk: seq<WalkEntry>, keep: string -> bool, d: nat)
    requires d < |walk|
    ensures FilesOf(walk[..d + 1], keep) == FilesOf(walk[..d], keep) + FilesIn(walk[d].root, walk[d].files, keep)
  {
    assert walk[..d + 1][..d] == walk[..d];
  }

  /** The two nested loops of `find_video_files`: for each directory of the walk, in
      order, and each of its files, in order, append the joined path of every file
      that `keep` accepts. */
  method CollectFiles(walk: seq<WalkEntry>, keep: string -> bool) returns (found: seq<string>)
    ensures found == FilesOf(walk, keep)
  {
    found := [];
    for d := 0 to |walk|
      invariant found == FilesOf(walk[..d], keep)
    {
      var entry := walk[d];
      ghost var before := found;
      for k := 0 to |entry.files|
        invariant found == before + FilesIn(entry.root, entry.files[..k], keep)
      {
        var file := entry.files[k];
        FilesInStep(entry.root, entry.files, keep, k);
        if keep(file) {
          found := found + [Join(entry.root, file)];
        }
      }
      assert entry.files[..|entry.files|] == entry.files;
      FilesOfStep(walk, keep, d);
    }
    assert walk[..|walk|] == walk;
  }

  /** Entry `k` of `files` is accepted and joins to the path `x`. */
  predicate ListedAt(root: string, files: seq<string>, keep: string -> bool, k: int, x: string)
  {
    0 <= k < |files| && keep(files[k]) && x == Join(root, files[k])
  }

  /** Entry `k` of directory `d` of the walk is accepted and joins to the path `x`. */
  predicate WalkedAt(walk: seq<WalkEntry>, keep: string -> bool, d: int, k: int, x: string)
  {
    0 <= d < |walk| && ListedAt(walk[d].root, walk[d].files, keep, k, x)
  }

  /** A path is listed for one directory exactly when it is that directory joined with
      one of its accepted files. */
  lemma {:induction false} FilesInMembers(root: string, files: seq<string>, keep: string -> bool, x: string)
    ensures x in FilesIn(root, files, keep) <==> exists k :: ListedAt(root, files, keep, k, x)
  {
    if files != [] {
      var front := files[..|files| - 1];
      var last := files[|files| - 1];
      FilesInMembers(root, front, keep, x);
      if x in FilesIn(root, front, keep) {
        var k :| ListedAt(root, front, keep, k, x);
        assert ListedAt(root, files, keep, k, x);
      } else if keep(last) && x == Join(root, last) {
        assert ListedAt(root, files, keep, |files| - 1, x);
      }
      if exists k :: ListedAt(root, files, keep, k, x) {
        var k :| ListedAt(root, files, keep, k, x);
        if k < |front| {
          assert ListedAt(root, front, keep, k, x);
        }
      }
    }
  }

  /** A path is selected exactly when some directory of the walk holds a file that
      passes the filter and joins to it: nothing that fails the filter slips in,
      nothing that passes it is lost. */
  lemma {:induction false} FilesOfMembers(walk: seq<WalkEntry>, keep: string -> bool, x: string)
    ensures x in FilesOf(walk, keep) <==> exists d, k :: WalkedAt(walk, keep, d, k, x)
  {
    if walk != [] {
      var front := walk[..|walk| - 1];
      var last := walk[|walk| - 1];
      FilesOfMembers(front, keep, x);
      FilesInMembers(last.root, last.files, keep, x);
      if x in FilesOf(front, keep) {
        var d, k :| WalkedAt(front, keep, d, k, x);
        assert WalkedAt(walk, keep, d, k, x);
      } else if x in FilesIn(last.root, last.files, keep) {
        var k :| ListedAt(last.root, last.files, keep, k, x);
        assert WalkedAt(walk, keep, |walk| - 1, k, x);
      }
      if exists d, k :: WalkedAt(walk, keep, d, k, x) {
        var d, k :| WalkedAt(walk, keep, d, k, x);
        if d < |front| {
          assert WalkedAt(front, keep, d, k, x);
        } else {
          assert ListedAt(last.root, last.files, keep, k, x);
        }
      }
    }
  }

  /** Selection distributes over the walk: later directories only append, so the
      result keeps walk order. */
  lemma {:induction false} FilesOfAppend(walk: seq<WalkEntry>, more: seq<WalkEntry>, keep: string -> bool)
    ensures FilesOf(walk + more, keep) == FilesOf(walk, keep) + FilesOf(more, keep)
    decreases |more|
  {
    if more == [] {
      assert walk + more == walk;
    } else {
      var front := more[..|more| - 1];
      var all := walk + more;
      var last := more[|more| - 1];
      assert all[..|all| - 1] == walk + front;
      assert all[|all| - 1] == last;
      FilesOfAppend(walk, front, keep);
      calc {
        FilesOf(all, keep);
        FilesOf(walk + front, keep) + FilesIn(last.root, last.files, keep);
        (FilesOf(walk, keep) + FilesOf(front, keep)) + FilesIn(last.root, last.files, keep);
        FilesOf(walk, keep) + (FilesOf(front, keep) + FilesIn(last.root, last.files, keep));
        FilesOf(walk, keep) + FilesOf(more, keep);
      }
    }
  }

  /** Two directories, each listing an accepted file before a rejected one, yield the
      two accepted files in walk order, joined to their directories. */
  lemma TwoDirectories(r1: string, r2: string, a: string, b: string, c: string, e: string, keep: string -> bool)
    requires keep(a) && !keep(b) && keep(c) && !keep(e)
    ensures FilesOf([WalkEntry(r1, [a, b]), WalkEntry(r2, [c, e])], keep) == [Join(r1, a), Join(r2, c)]
  {
    var w := [WalkEntry(r1, [a, b]), WalkEntry(r2, [c, e])];
    assert w[..1] == [w[0]] && [w[0]][..0] == [];
    assert [a, b][..1] == [a] && [a][..0] == [];
    assert [c, e][..1] == [c] && [c][..0] == [];
    assert FilesIn(r1, [a], keep) == FilesIn(r1, [], keep) + [Join(r1, a)];
    assert FilesIn(r1, [a, b], keep) == FilesIn(r1, [a], keep);
    assert FilesIn(r2, [c], keep) == FilesIn(r2, [], keep) + [Join(r2, c)];
    assert FilesIn(r2, [c, e], keep) == FilesIn(r2, [c], keep);
    assert FilesOf([w[0]], keep) == [Join(r1, a)];
  }
}
