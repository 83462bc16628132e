/** The file filter of the proxy generator (`find_video_files`): walk the source tree
    and keep every file whose lower-cased suffix is one of the allowed video container
    extensions, in the order the walk yields them. */
module Discovery {
  import opened PyStr
  import opened PyPath
  import opened Walk

  /** The nine allowed container extensions, all lower case. */
  const VideoExtensions: set<string> :=
    {".mp4", ".avi", ".mov", ".mkv", ".wmv", ".flv", ".webm", ".m4v", ".3gp"}

  /** The filter applied to one name: `Path(file).suffix.lower() in VIDEO_EXTENSIONS`. */
  predicate IsVideoFile(file: string)
  {
    Lower(Suffix(file)) in VideoExtensions
  }

  /** What `find_video_files` returns for the walk. */
  function VideoFilesOf(walk: seq<WalkEntry>): seq<string>
  {
    FilesOf(walk, IsVideoFile)
  }

  /** `find_video_files(directory)`, with `os.walk(directory)` given as `walk`: the
      nested loops run with the video-suffix test as filter. */
  method FindVideoFiles(walk: seq<WalkEntry>) returns (videoFiles: seq<string>)
    ensures videoFiles == VideoFilesOf(walk)
  {
    videoFiles := CollectFiles(walk, IsVideoFile);
  }

  /** The discovered paths are exactly the joined paths of the walk's video files. */
  lemma VideoFilesOfMembers(walk: seq<WalkEntry>, x: string)
    ensures x in VideoFilesOf(walk) <==> exists d, k :: WalkedAt(walk, IsVideoFile, d, k, x)
  {
    FilesOfMembers(walk, IsVideoFile, x);
  }

  /** A dot, then at least one character and no further dot or slash. */
  predicate ProperExtension(ext: string)
  {
    |ext| >= 2 && ext[0] == '.' && '.' !in ext[1..] && '/' !in ext
  }

  /** A name `base + ext` with a proper extension is kept exactly when its extension,
      lowered, is one of the nine: the match ignores case, so `.MOV` and `.Mp4`
      qualify like `.mov` and `.mp4`. */
  lemma KeptIffExtension(base: string, ext: string)
    requires base != [] && '/' !in base
    requires ProperExtension(ext)
    ensures IsVideoFile(base + ext) <==> Lower(ext) in VideoExtensions
  {
    DottedName(base, ext);
  }

  /** The match ignores case: `.MOV` and `.Mp4` lower to allowed extensions. With
      `KeptIffExtension` this keeps `clip.MOV`. */
  lemma UpperCaseKept()
    ensures Lower(".MOV") in VideoExtensions && Lower(".Mp4") in VideoExtensions
  {
    assert Lower(".MOV") == ".mov";
    assert Lower(".Mp4") == ".mp4";
  }

  /** A name whose suffix is `.mp4` is kept. */
  lemma Mp4Kept(name: string)
    requires Suffix(name) == ".mp4"
    ensures IsVideoFile(name)
  {
    assert Lower(".mp4") == ".mp4";
  }

  /** `.txt` is not allowed, so `notes.txt` is dropped. */
  lemma TextDropped()
    ensures Lower(".txt") !in VideoExtensions
  {
    LowerOfLower(".txt");
  }

  /** `.jpg` is not allowed, so `photo.jpg` is dropped. */
  lemma JpegDropped()
    ensures Lower(".jpg") !in VideoExtensions
  {
    LowerOfLower(".jpg");
  }

  /** `.MOV`, `.mp4`, `.txt` and `.jpg` are proper extensions: a dot, then at least
      one character and no further dot or slash. */
  lemma SampleExtensionsProper()
    ensures ProperExtension(".MOV") && ProperExtension(".mp4")
    ensures ProperExtension(".txt") && ProperExtension(".jpg")
  {
    assert ".MOV"[1..] == "MOV" && ".mp4"[1..] == "mp4";
    assert ".txt"[1..] == "txt" && ".jpg"[1..] == "jpg";
  }

  /** Whatever its base name, a file ending in `.MOV` is kept. */
  lemma MovFileKept(base: string)
    requires base != [] && '/' !in base
    ensures IsVideoFile(base + ".MOV")
  {
    SampleExtensionsProper();
    KeptIffExtension(base, ".MOV");
    UpperCaseKept();
  }

  /** Whatever its base name, a file ending in `.mp4` is kept. */
  lemma Mp4FileKept(base: string)
    requires base != [] && '/' !in base
    ensures IsVideoFile(base + ".mp4")
  {
    SampleExtensionsProper();
    DottedName(base, ".mp4");
    Mp4Kept(base + ".mp4");
  }

  /** Whatever its base name, a file ending in `.txt` is dropped. */
  lemma TextFileDropped(base: string)
    requires base != [] && '/' !in base
    ensures !IsVideoFile(base + ".txt")
  {
    SampleExtensionsProper();
    KeptIffExtension(base, ".txt");
    TextDropped();
  }

  /** Whatever its base name, a file ending in `.jpg` is dropped. */
  lemma JpegFileDropped(base: string)
    requires base != [] && '/' !in base
    ensures !IsVideoFile(base + ".jpg")
  {
    SampleExtensionsProper();
    KeptIffExtension(base, ".jpg");
    JpegDropped();
  }

  /** A name without a suffix is dropped. */
  lemma NoSuffixDropped(name: string)
    requires Suffix(name) == ""
    ensures !IsVideoFile(name)
  {
    assert Lower("") == "";
  }

  /** A name whose last character is a dot has no suffix, so it is dropped even when
      it reads `clip.mp4.`. */
  lemma TrailingDotDropped(name: string)
    requires '/' !in name && name != [] && name[|name| - 1] == '.'
    ensures Suffix(name) == "" && !IsVideoFile(name)
  {
    assert RFind(name, '/') == -1;
    assert name[0..] == name;
    NoSuffixDropped(name);
  }

  /** A hidden file named `.mp4` has no suffix (its only dot is its first character),
      so it is dropped. */
  lemma HiddenFileDropped()
    ensures !IsVideoFile(".mp4")
  {
    UndottedName(".mp4");
    NoSuffixDropped(".mp4");
  }
}
