/** One run of `process_video_file`: load the video, apply the clip-window policy,
    gather metadata, compose the title card, derive the output path and render.
    The codec steps are outcomes supplied by the caller. */
module Proxy {
  import opened Wrappers
  import opened PyStr
  import opened PyPath
  import opened Discovery
  import opened Metadata
  import opened ClipWindow
  import opened TitleCard

  /** What every proxy name ends with, whatever the source container. */
  const ProxyEnding: string := "_proxy.mp4"

  /** `f"{filename}_proxy.mp4"` for the stem `filename`. */
  function OutputName(stem: string): string
  {
    stem + ProxyEnding
  }

  /** `os.path.join(output_dir, output_filename)` for the source `inputPath`. */
  function OutputPath(outputDir: string, inputPath: string): string
  {
    Join(outputDir, OutputName(Stem(inputPath)))
  }

  /** A stem never holds a `/`. */
  lemma StemHasNoSlash(path: string)
    ensures '/' !in Stem(path)
  {
    StemSuffixSplit(path);
    var name := Name(path);
    forall k | 0 <= k < |Stem(path)| ensures Stem(path)[k] != '/' {
      assert Stem(path)[k] == (Stem(path) + Suffix(path))[k];
    }
  }

  /** The proxy path lies directly in the output directory, its suffix is `.mp4`
      whatever the source suffix was, and its stem is the source stem with `_proxy`
      appended. */
  lemma {:induction false} OutputPathParts(outputDir: string, inputPath: string)
    ensures var out := OutputPath(outputDir, inputPath);
      && Name(out) == OutputName(Stem(inputPath))
      && Suffix(out) == ".mp4"
      && Stem(out) == Stem(inputPath) + "_proxy"
  {
    var stem := Stem(inputPath);
    StemHasNoSlash(inputPath);
    assert OutputName(stem) == (stem + "_proxy") + ".mp4";
    DottedName(stem + "_proxy", ".mp4");
    JoinKeepsName(outputDir, OutputName(stem));
  }

  /** Two sources get the same proxy path exactly when they have the same stem: the
      source directory and suffix play no part, so `a/clip.mov` and `b/clip.mp4`
      overwrite each other's proxy. */
  lemma {:induction false} OutputPathCollision(outputDir: string, p1: string, p2: string)
    ensures OutputPath(outputDir, p1) == OutputPath(outputDir, p2) <==> Stem(p1) == Stem(p2)
  {
    OutputPathParts(outputDir, p1);
    OutputPathParts(outputDir, p2);
    if OutputPath(outputDir, p1) == OutputPath(outputDir, p2) {
      var s1, s2 := Stem(p1), Stem(p2);
      assert s1 + "_proxy" == s2 + "_proxy";
      assert s1 == (s1 + "_proxy")[..|s1|];
    }
  }

  /** A proxy is itself a video file by the discovery filter, so pointing the
      generator at its own output directory processes the proxies again. */
  lemma ProxyIsVideoFile(outputDir: string, inputPath: string)
    ensures IsVideoFile(OutputPath(outputDir, inputPath))
  {
    OutputPathParts(outputDir, inputPath);
    Mp4Kept(OutputPath(outputDir, inputPath));
  }

  /** What the environment does when one file is processed: the duration the video
      loads with (`None` when `VideoFileClip` raises), the random draw, the outcome
      of the stat step, and whether the subclip, resize, compositing and write all
      complete. */
  datatype FileEnv = FileEnv(duration: Option<real>, draw: UnitDraw, statDate: Option<string>, renderOk: bool)

  /** How processing one file ends; only `Written` makes the function return `True`. */
  datatype Outcome =
    | LoadFailed
    | Skipped(duration: real)
    | RenderFailed
    | Written(outputPath: string, window: Window, titleText: string)

  /** The outcome of processing `inputPath` into `outputDir` in environment `env`. */
  function OutcomeOf(inputPath: string, outputDir: string, env: FileEnv): Outcome
  {
    match env.duration
    case None => LoadFailed
    case Some(duration) =>
      match SelectWindow(duration, env.draw)
      case TooShort => Skipped(duration)
      case Selected(window) =>
        if !env.renderOk then RenderFailed
        else
          var meta := MetadataOf(inputPath, env.statDate);
          var text := JoinWith("\n", TitleLines(meta.date, meta.location, Stem(inputPath)));
          Written(OutputPath(outputDir, inputPath), window, text)
  }

  /** `process_video_file(input_path, output_dir)`: returns `True` exactly when the
      proxy is written, together with how the attempt ended. */
  method ProcessVideoFile(inputPath: string, outputDir: string, env: FileEnv)
    returns (ok: bool, outcome: Outcome)
    ensures outcome == OutcomeOf(inputPath, outputDir, env)
    ensures ok <==> outcome.Written?
  {
    if env.duration.None? {
      return false, LoadFailed;
    }
    var duration := env.duration.value;
    var selection := SelectWindow(duration, env.draw);
    if selection.TooShort? {
      return false, Skipped(duration);
    }
    var dateStr, locationStr := GetVideoMetadata(inputPath, env.statDate);
    var filename := Stem(inputPath);
    var titleParts, titleText := ComposeTitle(dateStr, locationStr, filename);
    var outputPath := Join(outputDir, OutputName(filename));
    if !env.renderOk {
      return false, RenderFailed;
    }
    return true, Written(outputPath, selection.window, titleText);
  }

  /** A file succeeds exactly when it loads, lasts at least five seconds and renders;
      a video under five seconds is rejected whatever else happens. */
  lemma SucceedsIff(inputPath: string, outputDir: string, env: FileEnv)
    ensures OutcomeOf(inputPath, outputDir, env).Written?
        <==> env.duration.Some? && env.duration.value >= ClipLength && env.renderOk
    ensures env.duration.Some? && env.duration.value < ClipLength
        ==> OutcomeOf(inputPath, outputDir, env) == Skipped(env.duration.value)
  {
  }

  /** A written proxy holds a five-second window inside the video, lands at the
      derived `.mp4` path in the output directory, and its card ends with the
      source's stem on the file line. */
  lemma WrittenProxy(inputPath: string, outputDir: string, env: FileEnv)
    requires OutcomeOf(inputPath, outputDir, env).Written?
    ensures var o := OutcomeOf(inputPath, outputDir, env);
      && Fits(o.window, env.duration.value)
      && o.outputPath == OutputPath(outputDir, inputPath)
      && Suffix(o.outputPath) == ".mp4"
      && EndsWith(o.titleText, FileLine(Stem(inputPath)))
  {
    var meta := MetadataOf(inputPath, env.statDate);
    OutputPathParts(outputDir, inputPath);
    CardEnds(meta.date, meta.location, Stem(inputPath));
  }
}
